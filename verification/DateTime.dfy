/** Wall-clock nanoseconds to calendar date and text, and the Gregorian calendar they are checked against. */
module DateTime {
  import opened Bytes

  const NANOS := 1_000_000_000
  const NANOS_PER_MILLI := 1_000_000
  const DAY := 86400
  const EPOCH_YEAR := 1970
  const LAST_YEAR := 2554
  const TEXT_LEN := 23
  const NANOS_LIMIT := 0x1_0000_0000_0000_0000

  predicate IsLeap(y: nat) {
    y % 4 == 0 && (y % 100 != 0 || y % 400 == 0)
  }

  function YearLen(y: nat): nat {
    if IsLeap(y) then 366 else 365
  }

  function MonthLen(y: nat, m: nat): (n: nat)
    requires 1 <= m <= 12
    ensures 28 <= n <= 31
  {
    if m == 2 then (if IsLeap(y) then 29 else 28)
    else if m == 4 || m == 6 || m == 9 || m == 11 then 30 else 31
  }

  datatype Fields = Fields(year: nat, month: nat, day: nat, hour: nat, minute: nat, second: nat, milli: nat) {
    predicate Valid() {
      && EPOCH_YEAR <= year && 1 <= month <= 12 && 1 <= day <= MonthLen(year, month)
      && hour < 24 && minute < 60 && second < 60 && milli < 1000
    }
  }

  // ---- the calendar ----

  /** Leap days before the first of January of year `y`, in the proleptic Gregorian calendar. */
  function LeapDays(y: nat): int
    requires y >= 1
  {
    (y - 1) / 4 - (y - 1) / 100 + (y - 1) / 400
  }

  /** Days from the epoch to the first of January of year `y`. */
  function DaysBefore(y: nat): int
    requires y >= EPOCH_YEAR
  {
    365 * (y - EPOCH_YEAR) + LeapDays(y) - LeapDays(EPOCH_YEAR)
  }

  /** Days of the year before the first of month `m`; month 13 stands for the end of the year. */
  function DaysBeforeMonth(y: nat, m: nat): nat
    requires 1 <= m <= 13
  {
    [0, 31, 59, 90, 120, 151, 181, 212, 243, 273, 304, 334, 365][m - 1] + if m > 2 && IsLeap(y) then 1 else 0
  }

  /** The number of a date, counted in days from the epoch. */
  function DayNumber(y: nat, m: nat, d: nat): int
    requires y >= EPOCH_YEAR && 1 <= m <= 12
  {
    DaysBefore(y) + DaysBeforeMonth(y, m) + d - 1
  }

  /** Milliseconds from the epoch to the moment the fields name. */
  function Millis(f: Fields): int
    requires f.Valid()
  {
    (((DayNumber(f.year, f.month, f.day) * 24 + f.hour) * 60 + f.minute) * 60 + f.second) * 1000 + f.milli
  }

  /** Some days of the calendar. */
  lemma FirstDays()
    ensures DayNumber(1970, 1, 1) == 0 && DayNumber(1970, 2, 1) == 31 && DayNumber(1970, 3, 1) == 59
  {
  }

  lemma LeapDaysCounted()
    ensures DayNumber(2000, 2, 29) == 11016 && DayNumber(2000, 3, 1) == 11017
    ensures DayNumber(2100, 2, 28) == 47540 && DayNumber(2100, 3, 1) == 47541
  {
  }

  /** Every fourth year is a leap year, except the centuries that are no multiple of 400. */
  lemma LeapYears(y: nat)
    ensures IsLeap(4 * y) <==> y % 25 != 0 || y % 100 == 0
    ensures !IsLeap(4 * y + 1) && !IsLeap(4 * y + 2) && !IsLeap(4 * y + 3)
  {
  }

  lemma NextYear(y: nat)
    requires y >= EPOCH_YEAR
    ensures DaysBefore(y + 1) == DaysBefore(y) + YearLen(y)
  {
    assert y / 4 == (y - 1) / 4 + if y % 4 == 0 then 1 else 0;
    assert y / 100 == (y - 1) / 100 + if y % 100 == 0 then 1 else 0;
    assert y / 400 == (y - 1) / 400 + if y % 400 == 0 then 1 else 0;
  }

  lemma NextMonth(y: nat, m: nat)
    requires 1 <= m <= 12
    ensures DaysBeforeMonth(y, m + 1) == DaysBeforeMonth(y, m) + MonthLen(y, m)
  {
  }

  lemma WholeYear(y: nat)
    ensures DaysBeforeMonth(y, 13) == YearLen(y)
  {
  }

  // ---- the conversion loops ----

  method FindYear(days: nat) returns (year: nat, left: nat)
    ensures year >= EPOCH_YEAR && left < YearLen(year) && DaysBefore(year) + left == days
  {
    year, left := EPOCH_YEAR, days;
    while true
      invariant year >= EPOCH_YEAR && DaysBefore(year) + left == days
      decreases left
    {
      var daysThis := if IsLeap(year) then 366 else 365;
      if left < daysThis { break; }
      NextYear(year);
      left := left - daysThis;
      year := year + 1;
    }
  }

  method FindMonth(year: nat, days: nat) returns (month: nat, left: nat)
    requires days < YearLen(year)
    ensures 1 <= month <= 12 && left < MonthLen(year, month) && DaysBeforeMonth(year, month) + left == days
  {
    var table := [31, 28, 31, 30, 31, 30, 31, 31, 30, 31, 30, 31];
    var mon := 0;
    left := days;
    while mon < 12
      invariant 0 <= mon <= 12 && left >= 0 && DaysBeforeMonth(year, mon + 1) + left == days
    {
      var dim := table[mon];
      if mon == 1 && IsLeap(year) { dim := 29; }
      if left < dim { break; }
      NextMonth(year, mon + 1);
      left := left - dim;
      mon := mon + 1;
    }
    WholeYear(year);
    month := mon + 1;
  }

  /** The fields of a 64-bit time: the inverse of the calendar, with a year that fits 16 bits by far. */
  method Convert(wallNs: nat) returns (f: Fields)
    requires wallNs < NANOS_LIMIT
    ensures f.Valid() && f.year <= LAST_YEAR && Millis(f) == wallNs / NANOS_PER_MILLI
  {
    var totalSec := wallNs / NANOS;
    var ms := wallNs % NANOS / NANOS_PER_MILLI;
    var d := totalSec / DAY;
    var remaining := totalSec % DAY;
    var hh := remaining / 3600;
    var mm := remaining % 3600 / 60;
    var ss := remaining % 60;
    var year, left := FindYear(d);
    var month, day := FindMonth(year, left);
    f := Fields(year, month, day + 1, hh, mm, ss, ms);
    YearFits(year, d);
    SecondsSplit(remaining, hh, mm, ss);
    MillisSplit(wallNs);
  }

  lemma YearFits(year: nat, d: nat)
    requires year >= EPOCH_YEAR && DaysBefore(year) <= d <= 213503
    ensures year <= LAST_YEAR
  {
    assert DaysBefore(LAST_YEAR + 1) == 213667;
    if year > LAST_YEAR { YearsGrow(LAST_YEAR + 1, year); }
  }

  lemma {:induction false} YearsGrow(y: nat, z: nat)
    requires EPOCH_YEAR <= y <= z
    ensures DaysBefore(z) >= DaysBefore(y) + 365 * (z - y)
    decreases z - y
  {
    if y < z {
      YearsGrow(y, z - 1);
      NextYear(z - 1);
    }
  }

  lemma SecondsSplit(s: nat, hh: nat, mm: nat, ss: nat)
    requires s < DAY && hh == s / 3600 && mm == s % 3600 / 60 && ss == s % 60
    ensures hh < 24 && mm < 60 && ss < 60 && (hh * 60 + mm) * 60 + ss == s
  {
  }

  lemma MillisSplit(ns: nat)
    ensures ns % NANOS / NANOS_PER_MILLI < 1000
    ensures ns / NANOS * 1000 + ns % NANOS / NANOS_PER_MILLI == ns / NANOS_PER_MILLI
  {
  }

  // ---- dates in order ----

  /** The start of a later month or year lies past the end of the earlier one. */
  lemma {:induction false} MonthsGrow(y: nat, m: nat, k: nat)
    requires 1 <= m < k <= 13
    ensures DaysBeforeMonth(y, k) >= DaysBeforeMonth(y, m) + MonthLen(y, m)
    decreases k
  {
    NextMonth(y, k - 1);
    if m < k - 1 { MonthsGrow(y, m, k - 1); }
  }

  lemma {:induction false} YearsApart(y: nat, z: nat)
    requires EPOCH_YEAR <= y < z
    ensures DaysBefore(z) >= DaysBefore(y) + YearLen(y)
    decreases z
  {
    NextYear(z - 1);
    if y < z - 1 { YearsApart(y, z - 1); }
  }

  /** Lexicographic order on lists of numbers. */
  predicate ListLess(u: seq<int>, v: seq<int>)
    requires |u| == |v|
  {
    u != [] && (u[0] < v[0] || (u[0] == v[0] && ListLess(u[1..], v[1..])))
  }

  lemma LessStep(x: int, u: seq<int>, y: int, v: seq<int>)
    requires |u| == |v|
    ensures ListLess([x] + u, [y] + v) <==> x < y || (x == y && ListLess(u, v))
  {
    assert ([x] + u)[1..] == u && ([y] + v)[1..] == v;
  }

  predicate ValidDate(y: nat, m: nat, d: nat) {
    y >= EPOCH_YEAR && 1 <= m <= 12 && 1 <= d <= MonthLen(y, m)
  }

  lemma WithinYear(y: nat, m: nat, d: nat)
    requires ValidDate(y, m, d)
    ensures DaysBefore(y) <= DayNumber(y, m, d) < DaysBefore(y) + YearLen(y)
  {
    MonthsGrow(y, m, 13);
    WholeYear(y);
  }

  /** Dates are numbered in calendar order. */
  lemma DatesInOrder(y: nat, m: nat, d: nat, y': nat, m': nat, d': nat)
    requires ValidDate(y, m, d) && ValidDate(y', m', d')
    requires y < y' || (y == y' && (m < m' || (m == m' && d < d')))
    ensures DayNumber(y, m, d) < DayNumber(y', m', d')
  {
    WithinYear(y, m, d);
    WithinYear(y', m', d');
    if y < y' { YearsApart(y, y'); } else if m < m' { MonthsGrow(y, m, m'); }
  }

  function Date(f: Fields): seq<int> { [f.year, f.month, f.day] }
  function Clock(f: Fields): seq<int> { [f.hour, f.minute, f.second, f.milli] }
  function Values(f: Fields): seq<int> { Date(f) + Clock(f) }

  predicate Earlier(f: Fields, g: Fields) {
    ListLess(Values(f), Values(g))
  }

  lemma EarlierIs(f: Fields, g: Fields)
    ensures Earlier(f, g) <==>
              || f.year < g.year
              || (f.year == g.year && (|| f.month < g.month
                                       || (f.month == g.month && (|| f.day < g.day
                                                                  || (f.day == g.day && ClockLess(f, g))))))
  {
    var u, v := [f.day] + Clock(f), [g.day] + Clock(g);
    LessStep(f.day, Clock(f), g.day, Clock(g));
    LessStep(f.month, u, g.month, v);
    LessStep(f.year, [f.month] + u, g.year, [g.month] + v);
    assert Values(f) == [f.year] + ([f.month] + u) && Values(g) == [g.year] + ([g.month] + v);
  }

  predicate ClockLess(f: Fields, g: Fields) {
    ListLess(Clock(f), Clock(g))
  }

  lemma ClockLessIs(f: Fields, g: Fields)
    ensures ClockLess(f, g) <==>
              || f.hour < g.hour
              || (f.hour == g.hour && (|| f.minute < g.minute
                                       || (f.minute == g.minute && (|| f.second < g.second
                                                                    || (f.second == g.second && f.milli < g.milli)))))
  {
    LessStep(f.milli, [], g.milli, []);
    LessStep(f.second, [f.milli], g.second, [g.milli]);
    LessStep(f.minute, [f.second, f.milli], g.minute, [g.second, g.milli]);
    LessStep(f.hour, [f.minute, f.second, f.milli], g.hour, [g.minute, g.second, g.milli]);
    assert [f.milli] + [] == [f.milli] && [g.milli] + [] == [g.milli];
    assert [f.second] + [f.milli] == [f.second, f.milli] && [g.second] + [g.milli] == [g.second, g.milli];
    assert [f.minute] + [f.second, f.milli] == [f.minute, f.second, f.milli];
    assert [g.minute] + [g.second, g.milli] == [g.minute, g.second, g.milli];
    assert Clock(f) == [f.hour] + [f.minute, f.second, f.milli] && Clock(g) == [g.hour] + [g.minute, g.second, g.milli];
  }

  function ClockMillis(f: Fields): int {
    ((f.hour * 60 + f.minute) * 60 + f.second) * 1000 + f.milli
  }

  lemma MillisParts(f: Fields)
    requires f.Valid()
    ensures Millis(f) == DayNumber(f.year, f.month, f.day) * 86_400_000 + ClockMillis(f)
            && 0 <= ClockMillis(f) < 86_400_000
  {
  }

  /** Times are numbered in the order of their fields. */
  lemma EarlierIsLess(f: Fields, g: Fields)
    requires f.Valid() && g.Valid() && Earlier(f, g)
    ensures Millis(f) < Millis(g)
  {
    EarlierIs(f, g);
    ClockLessIs(f, g);
    MillisParts(f);
    MillisParts(g);
    if Date(f) != Date(g) {
      DatesInOrder(f.year, f.month, f.day, g.year, g.month, g.day);
    }
  }

  lemma Comparable(f: Fields, g: Fields)
    ensures f == g || Earlier(f, g) || Earlier(g, f)
  {
    EarlierIs(f, g);
    EarlierIs(g, f);
    ClockLessIs(f, g);
    ClockLessIs(g, f);
  }

  /** The calendar is one to one and in order: fields and milliseconds determine each other. */
  lemma OrderExact(f: Fields, g: Fields)
    requires f.Valid() && g.Valid()
    ensures Earlier(f, g) <==> Millis(f) < Millis(g)
    ensures f == g <==> Millis(f) == Millis(g)
  {
    Comparable(f, g);
    if Earlier(f, g) { EarlierIsLess(f, g); }
    if Earlier(g, f) { EarlierIsLess(g, f); }
  }

  // ---- the text ----

  function DigitChar(d: nat): char
    requires d < 10
  {
    ['0', '1', '2', '3', '4', '5', '6', '7', '8', '9'][d]
  }

  /** The last `k` decimal digits of a number. */
  function Pad(v: nat, k: nat): (s: string)
    ensures |s| == k
  {
    if k == 0 then "" else Pad(v / 10, k - 1) + [DigitChar(v % 10)]
  }

  /** `YYYY-MM-DD hh:mm:ss:mmm`. */
  function Text(f: Fields): (s: string)
    ensures |s| == TEXT_LEN
  {
    Pad(f.year, 4) + ("-" + (Pad(f.month, 2) + ("-" + (Pad(f.day, 2) + (" " + ClockText(f))))))
  }

  function ClockText(f: Fields): (s: string)
    ensures |s| == 12
  {
    Pad(f.hour, 2) + (":" + (Pad(f.minute, 2) + (":" + (Pad(f.second, 2) + (":" + Pad(f.milli, 3))))))
  }

  /** Lexicographic order on texts of equal length. */
  predicate TextLess(s: string, t: string)
    requires |s| == |t|
  {
    s != [] && (s[0] < t[0] || (s[0] == t[0] && TextLess(s[1..], t[1..])))
  }

  lemma {:induction false} TextLessParts(a: string, s: string, b: string, t: string)
    requires |a| == |b| && |s| == |t|
    ensures TextLess(a + s, b + t) <==> TextLess(a, b) || (a == b && TextLess(s, t))
    decreases |a|
  {
    if a == [] {
      assert a + s == s && b + t == t;
    } else {
      assert (a + s)[1..] == a[1..] + s && (b + t)[1..] == b[1..] + t;
      TextLessParts(a[1..], s, b[1..], t);
      assert a == [a[0]] + a[1..] && b == [b[0]] + b[1..];
    }
  }

  lemma DigitsInOrder(d: nat, e: nat)
    requires d < 10 && e < 10
    ensures d < e <==> DigitChar(d) < DigitChar(e)
    ensures d == e <==> DigitChar(d) == DigitChar(e)
  {
  }

  /** Padded numbers compare as the numbers do. */
  lemma {:induction false} PadInOrder(v: nat, w: nat, k: nat)
    requires v < Pow10(k) && w < Pow10(k)
    ensures TextLess(Pad(v, k), Pad(w, k)) <==> v < w
    ensures Pad(v, k) == Pad(w, k) <==> v == w
  {
    if k == 0 {
    } else {
      PadInOrder(v / 10, w / 10, k - 1);
      var d, e := [DigitChar(v % 10)], [DigitChar(w % 10)];
      TextLessParts(Pad(v / 10, k - 1), d, Pad(w / 10, k - 1), e);
      DigitsInOrder(v % 10, w % 10);
      assert d[1..] == [] && e[1..] == [];
      assert Pad(v, k)[..k - 1] == Pad(v / 10, k - 1) && Pad(w, k)[..k - 1] == Pad(w / 10, k - 1);
      assert Pad(v, k)[k - 1] == d[0] && Pad(w, k)[k - 1] == e[0];
    }
  }

  /** A number, a separator and the rest compare number first. */
  lemma PartInOrder(v: nat, w: nat, k: nat, sep: string, s: string, t: string)
    requires v < Pow10(k) && w < Pow10(k) && |s| == |t|
    ensures TextLess(Pad(v, k) + (sep + s), Pad(w, k) + (sep + t)) <==> v < w || (v == w && TextLess(s, t))
  {
    PadInOrder(v, w, k);
    TextLessParts(Pad(v, k), sep + s, Pad(w, k), sep + t);
    TextLessParts(sep, s, sep, t);
    NotLessItself(sep);
  }

  lemma {:induction false} NotLessItself(s: string)
    ensures !TextLess(s, s)
  {
    if s == [] {
    } else {
      NotLessItself(s[1..]);
    }
  }

  lemma ClockTextInOrder(f: Fields, g: Fields)
    requires f.Valid() && g.Valid()
    ensures TextLess(ClockText(f), ClockText(g)) <==> ClockLess(f, g)
  {
    ClockLessIs(f, g);
    assert Pow10(2) == 100 && Pow10(3) == 1000;
    PadInOrder(f.milli, g.milli, 3);
    var s1, t1 := Pad(f.milli, 3), Pad(g.milli, 3);
    PartInOrder(f.second, g.second, 2, ":", s1, t1);
    var s2, t2 := Pad(f.second, 2) + (":" + s1), Pad(g.second, 2) + (":" + t1);
    PartInOrder(f.minute, g.minute, 2, ":", s2, t2);
    var s3, t3 := Pad(f.minute, 2) + (":" + s2), Pad(g.minute, 2) + (":" + t2);
    PartInOrder(f.hour, g.hour, 2, ":", s3, t3);
  }

  lemma TextInOrder(f: Fields, g: Fields)
    requires f.Valid() && g.Valid() && f.year < 10000 && g.year < 10000
    ensures TextLess(Text(f), Text(g)) <==> Earlier(f, g)
  {
    EarlierIs(f, g);
    ClockTextInOrder(f, g);
    assert Pow10(2) == 100 && Pow10(4) == 10000;
    PartInOrder(f.day, g.day, 2, " ", ClockText(f), ClockText(g));
    var s1, t1 := Pad(f.day, 2) + (" " + ClockText(f)), Pad(g.day, 2) + (" " + ClockText(g));
    PartInOrder(f.month, g.month, 2, "-", s1, t1);
    var s2, t2 := Pad(f.month, 2) + ("-" + s1), Pad(g.month, 2) + ("-" + t1);
    PartInOrder(f.year, g.year, 4, "-", s2, t2);
  }

  /** The fields the conversion gives for a time, which are the only ones that name its millisecond. */
  ghost predicate IsDateOf(f: Fields, wallNs: nat) {
    f.Valid() && Millis(f) == wallNs / NANOS_PER_MILLI
  }

  /**
   * For all 64-bit times the texts are ordered as the times are, at millisecond resolution, and equal for
   * equal milliseconds only.
   */
  lemma TextOrderIsTimeOrder(f: Fields, m: nat, g: Fields, n: nat)
    requires m < NANOS_LIMIT && n < NANOS_LIMIT && IsDateOf(f, m) && IsDateOf(g, n)
    ensures f.year <= LAST_YEAR && g.year <= LAST_YEAR
    ensures TextLess(Text(f), Text(g)) <==> m / NANOS_PER_MILLI < n / NANOS_PER_MILLI
    ensures Text(f) == Text(g) <==> m / NANOS_PER_MILLI == n / NANOS_PER_MILLI
  {
    DateFits(f, m);
    DateFits(g, n);
    TextInOrder(f, g);
    TextInOrder(g, f);
    OrderExact(f, g);
    OrderExact(g, f);
    NotLessItself(Text(f));
  }

  lemma DateFits(f: Fields, ns: nat)
    requires ns < NANOS_LIMIT && IsDateOf(f, ns)
    ensures f.year <= LAST_YEAR
  {
    MillisParts(f);
    WithinYear(f.year, f.month, f.day);
    YearFits(f.year, DayNumber(f.year, f.month, f.day));
  }

  // ---- reading the text back ----

  predicate IsDigitChar(c: char) {
    '0' <= c <= '9'
  }

  /** The number that a text of decimal digits says. */
  function ValueOf(s: string): int {
    if s == [] then 0 else 10 * ValueOf(s[..|s| - 1]) + (s[|s| - 1] as int - '0' as int)
  }

  /** A text of decimal digits that says the number. */
  ghost predicate Says(s: string, v: nat) {
    (forall i :: 0 <= i < |s| ==> IsDigitChar(s[i])) && ValueOf(s) == v
  }

  lemma DigitSays(d: nat)
    requires d < 10
    ensures IsDigitChar(DigitChar(d)) && DigitChar(d) as int - '0' as int == d
  {
  }

  lemma {:induction false} PadSays(v: nat, k: nat)
    requires v < Pow10(k)
    ensures Says(Pad(v, k), v)
  {
    if k == 0 {
    } else {
      PadSays(v / 10, k - 1);
      DigitSays(v % 10);
      assert Pad(v, k)[..k - 1] == Pad(v / 10, k - 1);
    }
  }

  /**
   * The text of a date, read column by column: year, month, day, hour, minute, second and millisecond in decimal
   * digits, with `-`, `-`, a space and three times `:` between them.
   */
  ghost predicate Reads(s: string, f: Fields) {
    && |s| == 23
    && Says(s[0..4], f.year) && s[4] == '-' && Says(s[5..7], f.month) && s[7] == '-' && Says(s[8..10], f.day)
    && s[10] == ' '
    && Says(s[11..13], f.hour) && s[13] == ':' && Says(s[14..16], f.minute) && s[16] == ':'
    && Says(s[17..19], f.second) && s[19] == ':' && Says(s[20..23], f.milli)
  }

  lemma ClockColumns(f: Fields)
    ensures var s := ClockText(f);
            && s[0..2] == Pad(f.hour, 2) && s[2] == ':' && s[3..5] == Pad(f.minute, 2) && s[5] == ':'
            && s[6..8] == Pad(f.second, 2) && s[8] == ':' && s[9..12] == Pad(f.milli, 3)
  {
  }

  lemma DateColumns(f: Fields)
    ensures var s := Text(f);
            && s[0..4] == Pad(f.year, 4) && s[4] == '-' && s[5..7] == Pad(f.month, 2) && s[7] == '-'
            && s[8..10] == Pad(f.day, 2) && s[10] == ' ' && s[11..23] == ClockText(f)
  {
  }

  lemma Column(s: string, from: nat, to: nat, a: nat, b: nat, part: string)
    requires from <= to <= |s| && a <= b <= to - from && s[from..to][a..b] == part
    ensures s[from + a..from + b] == part
  {
    var t := s[from..to];
    forall i | 0 <= i < b - a ensures s[from + a + i] == part[i] {
      assert t[a..b][i] == t[a + i];
    }
  }

  lemma ClockReads(f: Fields, s: string)
    requires f.Valid() && |s| == 23 && s[11..23] == ClockText(f)
    ensures Says(s[11..13], f.hour) && s[13] == ':' && Says(s[14..16], f.minute) && s[16] == ':'
    ensures Says(s[17..19], f.second) && s[19] == ':' && Says(s[20..23], f.milli)
  {
    ClockColumns(f);
    Column(s, 11, 23, 0, 2, Pad(f.hour, 2));
    Column(s, 11, 23, 3, 5, Pad(f.minute, 2));
    Column(s, 11, 23, 6, 8, Pad(f.second, 2));
    Column(s, 11, 23, 9, 12, Pad(f.milli, 3));
    ClockSays(f);
    var t := s[11..23];
    assert s[13] == t[2] && s[16] == t[5] && s[19] == t[8];
  }

  lemma ClockSays(f: Fields)
    requires f.Valid()
    ensures Says(Pad(f.hour, 2), f.hour) && Says(Pad(f.minute, 2), f.minute)
    ensures Says(Pad(f.second, 2), f.second) && Says(Pad(f.milli, 3), f.milli)
  {
    assert Pow10(2) == 100 && Pow10(3) == 1000;
    PadSays(f.hour, 2);
    PadSays(f.minute, 2);
    PadSays(f.second, 2);
    PadSays(f.milli, 3);
  }

  lemma TextReads(f: Fields)
    requires f.Valid() && f.year < 10000
    ensures Reads(Text(f), f)
  {
    DateColumns(f);
    ClockReads(f, Text(f));
    assert Pow10(2) == 100 && Pow10(4) == 10000;
    PadSays(f.year, 4);
    PadSays(f.month, 2);
    PadSays(f.day, 2);
  }

  // ---- writing the text ----

  /** A number without its last `j` digits. */
  function Front(v: nat, j: nat): nat {
    if j == 0 then v else Front(v, j - 1) / 10
  }

  /** Digit `j` of a number, counted from the last one. */
  function DigitAt(v: nat, j: nat): char {
    DigitChar(Front(v, j) % 10)
  }

  lemma {:induction false} FrontOfTenth(v: nat, j: nat)
    ensures Front(v / 10, j) == Front(v, j + 1)
  {
    if j == 0 {
    } else {
      FrontOfTenth(v, j - 1);
    }
  }

  lemma {:induction false} PadAt(v: nat, k: nat, j: nat)
    requires j < k
    ensures Pad(v, k)[k - 1 - j] == DigitAt(v, j)
  {
    if j == 0 {
    } else {
      PadAt(v / 10, k - 1, j - 1);
      FrontOfTenth(v, j - 1);
    }
  }

  function DigitCount(v: nat): (k: nat)
    ensures k >= 1
  {
    if v < 10 then 1 else 1 + DigitCount(v / 10)
  }

  lemma {:induction false} FrontVanishes(v: nat, k: nat)
    ensures Front(v, k) == 0 <==> v == 0 || k >= DigitCount(v)
    decreases k
  {
    if k == 0 {
    } else {
      FrontOfTenth(v, k - 1);
      FrontVanishes(v / 10, k - 1);
    }
  }

  lemma {:induction false} NothingInFront(v: nat, k: nat)
    requires v < Pow10(k)
    ensures Front(v, k) == 0
    decreases k
  {
    if k == 0 {
    } else {
      NothingInFront(v / 10, k - 1);
      FrontOfTenth(v, k - 1);
    }
  }

  const MAX_DIGITS := 19

  /** At most the last 19 digits of a number, with zeros in front up to the given width. */
  function Number(val: nat, digits: nat): string {
    var k := if DigitCount(val) < MAX_DIGITS then DigitCount(val) else MAX_DIGITS;
    seq(if k < digits then digits - k else 0, _ => '0') + Pad(val, k)
  }

  lemma {:induction false} PadMore(v: nat, k: nat, d: nat)
    requires v < Pow10(k)
    ensures Pad(v, d + k) == seq(d, _ => '0') + Pad(v, k)
    decreases k, d
  {
    if k > 0 {
      PadMore(v / 10, k - 1, d);
    } else if d > 0 {
      PadMore(0, 0, d - 1);
    }
  }

  lemma NumberIsPad(val: nat, digits: nat)
    requires 1 <= digits <= MAX_DIGITS && val < Pow10(digits)
    ensures Number(val, digits) == Pad(val, digits)
  {
    NothingInFront(val, digits);
    FrontVanishes(val, digits);
    CountBounds(val);
    PadMore(val, DigitCount(val), digits - DigitCount(val));
  }

  lemma {:induction false} CountBounds(v: nat)
    ensures v < Pow10(DigitCount(v))
  {
    if v < 10 {
      assert Pow10(1) == 10;
    } else {
      CountBounds(v / 10);
    }
  }

  lemma {:induction false} ZerosFirst(n: nat, s: string)
    ensures ValueOf(seq(n, _ => '0') + s) == ValueOf(s)
    decreases |s|, n
  {
    var all := seq(n, _ => '0') + s;
    if s != [] {
      ZerosFirst(n, s[..|s| - 1]);
      assert all[..|all| - 1] == seq(n, _ => '0') + s[..|s| - 1];
    } else if n > 0 {
      ZerosFirst(n - 1, s);
      assert all[..|all| - 1] == seq(n - 1, _ => '0') + s;
    }
  }

  /** The last `k` digits say the number without the multiple of `10^k` that the digits in front of them stand for. */
  lemma {:induction false} PadSaysLast(v: nat, k: nat) returns (front: nat, said: nat)
    ensures Says(Pad(v, k), said) && said < Pow10(k) && v == front * Pow10(k) + said
    decreases k
  {
    if k == 0 {
      front, said := v, 0;
    } else {
      var w;
      front, w := PadSaysLast(v / 10, k - 1);
      said := 10 * w + v % 10;
      OneDigitMore(Pad(v / 10, k - 1), w, v % 10);
      TenTimes(front, Pow10(k - 1), w, v);
    }
  }

  lemma OneDigitMore(s: string, w: nat, d: nat)
    requires Says(s, w) && d < 10
    ensures Says(s + [DigitChar(d)], 10 * w + d)
  {
    DigitSays(d);
    assert (s + [DigitChar(d)])[..|s|] == s;
  }

  lemma TenTimes(front: nat, p: nat, w: nat, v: nat)
    requires v / 10 == front * p + w
    ensures v == front * (10 * p) + (10 * w + v % 10)
  {
    assert front * (10 * p) == 10 * (front * p);
  }

  /**
   * The text of a number says its last 19 digits, and the whole number when it has no more; it is as long as they are,
   * or as the width, if that is more.
   */
  lemma NumberSays(val: nat, digits: nat, most: nat) returns (front: nat, said: nat)
    requires most == 19
    ensures Says(Number(val, digits), said) && said < Pow10(most) && val == front * Pow10(most) + said
    ensures DigitCount(val) <= most ==> said == val
    ensures var k := if DigitCount(val) < most then DigitCount(val) else most;
            |Number(val, digits)| == if k < digits then digits else k
  {
    var k := if DigitCount(val) < most then DigitCount(val) else most;
    front, said := LastSay(val, k, most);
    NumberParts(val, digits, k);
    ZerosSay(if k < digits then digits - k else 0, Pad(val, k), said);
  }

  lemma NumberParts(val: nat, digits: nat, k: nat)
    requires k == if DigitCount(val) < MAX_DIGITS then DigitCount(val) else MAX_DIGITS
    ensures Number(val, digits) == seq(if k < digits then digits - k else 0, _ => '0') + Pad(val, k)
  {
  }

  lemma LastSay(val: nat, k: nat, most: nat) returns (front: nat, said: nat)
    requires k == if DigitCount(val) < most then DigitCount(val) else most
    ensures Says(Pad(val, k), said) && said < Pow10(most) && val == front * Pow10(most) + said
    ensures DigitCount(val) <= most ==> said == val
  {
    if DigitCount(val) <= most {
      CountBounds(val);
      Pow10Grows(k, most);
      PadSays(val, k);
      front, said := 0, val;
    } else {
      front, said := PadSaysLast(val, k);
    }
  }

  lemma ZerosSay(n: nat, s: string, v: nat)
    requires Says(s, v)
    ensures Says(seq(n, _ => '0') + s, v)
  {
    ZerosFirst(n, s);
  }

  /** The digit count is exact. */
  lemma {:induction false} DigitCountExact(v: nat, k: nat)
    requires k >= 1
    ensures DigitCount(v) <= k <==> v < Pow10(k)
    decreases k
  {
    if k == 1 {
      assert Pow10(1) == 10;
    } else {
      DigitCountExact(v / 10, k - 1);
    }
  }

  /** The digits of a number, last one first, filled up with zeros. */
  method Digits(val: nat, digits: nat) returns (tmp: array<char>, ti: nat)
    requires digits <= 20
    ensures fresh(tmp) && tmp.Length == 20 && ti == |Number(val, digits)| <= 20
    ensures forall j :: 0 <= j < ti ==> tmp[j] == Number(val, digits)[ti - 1 - j]
  {
    tmp := new char[20](_ => ' ');
    ti := 0;
    var v := val;
    if v == 0 {
      tmp[0] := '0';
      ti := 1;
    } else {
      while v > 0 && ti < MAX_DIGITS
        invariant ti <= MAX_DIGITS && ti <= DigitCount(val) && v == Front(val, ti)
        invariant forall j :: 0 <= j < ti ==> tmp[j] == DigitAt(val, j)
        decreases v
      {
        FrontVanishes(val, ti);
        tmp[ti] := DigitChar(v % 10);
        v := v / 10;
        ti := ti + 1;
      }
      FrontVanishes(val, ti);
    }
    ghost var k := ti;
    forall j | 0 <= j < k ensures tmp[j] == Pad(val, k)[k - 1 - j] { PadAt(val, k, j); }
    while ti < digits
      invariant k <= ti && (ti <= digits || ti == k)
      invariant forall j :: 0 <= j < k ==> tmp[j] == Pad(val, k)[k - 1 - j]
      invariant forall j :: k <= j < ti ==> tmp[j] == '0'
    {
      tmp[ti] := '0';
      ti := ti + 1;
    }
  }

  ghost predicate Untouched(s: seq<char>, t: seq<char>, from: nat) {
    |s| == |t| && forall i :: from <= i < |s| ==> s[i] == t[i]
  }

  /** One character, unless only the place of the terminator is left. */
  method Put(buf: array<char>, size: nat, pos: nat, c: char) returns (pos': nat)
    requires pos < size <= buf.Length
    modifies buf
    ensures pos' == if pos + 1 < size then pos + 1 else pos
    ensures buf[..pos'] == old(buf[..pos]) + if pos + 1 < size then [c] else []
    ensures Untouched(buf[..], old(buf[..]), pos')
  {
    pos' := pos;
    if pos + 1 < size {
      buf[pos] := c;
      pos' := pos + 1;
    }
  }

  /** A number in at least `digits` digits, as far as the buffer reaches. */
  method PutNumber(buf: array<char>, size: nat, pos: nat, val: nat, digits: nat) returns (pos': nat)
    requires pos < size <= buf.Length && digits <= 20
    modifies buf
    ensures var text := Number(val, digits);
            && pos' == (if pos + |text| < size then pos + |text| else size - 1)
            && buf[..pos'] == old(buf[..pos]) + text[..pos' - pos]
    ensures Untouched(buf[..], old(buf[..]), pos')
  {
    var tmp, ti := Digits(val, digits);
    ghost var text := Number(val, digits);
    pos' := pos;
    var j := ti;
    while j > 0
      invariant 0 <= j <= ti && pos' == if pos + (ti - j) < size then pos + (ti - j) else size - 1
      invariant forall i :: 0 <= i < ti ==> tmp[i] == text[ti - 1 - i]
      invariant buf[..pos'] == old(buf[..pos]) + text[..pos' - pos] && Untouched(buf[..], old(buf[..]), pos')
    {
      j := j - 1;
      ghost var k := pos' - pos;
      pos' := Put(buf, size, pos', tmp[j]);
      if pos' == pos + k + 1 { assert text[..k + 1] == text[..k] + [tmp[j]]; }
    }
  }

  method PutPart(buf: array<char>, size: nat, pos: nat, val: nat, digits: nat, sep: char) returns (pos': nat)
    requires size <= buf.Length && 1 <= digits <= 18 && val < Pow10(digits) && pos + digits + 1 < size
    modifies buf
    ensures pos' == pos + digits + 1 && buf[..pos'] == old(buf[..pos]) + (Pad(val, digits) + [sep])
    ensures Untouched(buf[..], old(buf[..]), pos')
  {
    NumberIsPad(val, digits);
    pos' := PutNumber(buf, size, pos, val, digits);
    pos' := Put(buf, size, pos', sep);
  }

  /**
   * `format_datetime`: 23 characters and the terminator for every 64-bit time, and nothing when there is no
   * buffer or it is too small.
   */
  method FormatDatetime(buf: array?<char>, size: nat, wallNs: nat) returns (ghost f: Fields)
    requires wallNs < NANOS_LIMIT && (buf != null ==> size <= buf.Length)
    modifies buf
    ensures IsDateOf(f, wallNs) && f.year <= LAST_YEAR
    ensures buf != null && size < 24 ==> buf[..] == old(buf[..])
    ensures buf != null && size >= 24 ==>
            buf[..23] == Text(f) && Reads(buf[..23], f) && buf[23] == '\0' && buf[24..] == old(buf[24..])
  {
    var g := Convert(wallNs);
    f := g;
    if buf == null || size < 24 { return; }
    var pos := PutDate(buf, size, g);
    pos := PutClock(buf, size, pos, g);
    TextParts(g);
    TextReads(g);
    buf[pos] := '\0';
  }

  function DateText(f: Fields): (s: string)
    ensures |s| == 11
  {
    Pad(f.year, 4) + ("-" + (Pad(f.month, 2) + ("-" + (Pad(f.day, 2) + " "))))
  }

  lemma TextParts(f: Fields)
    ensures Text(f) == DateText(f) + ClockText(f)
  {
  }

  method PutDate(buf: array<char>, size: nat, f: Fields) returns (pos: nat)
    requires size <= buf.Length && 24 <= size && f.Valid() && f.year < 10000
    modifies buf
    ensures pos == 11 && buf[..pos] == DateText(f)
    ensures Untouched(buf[..], old(buf[..]), pos)
  {
    assert Pow10(2) == 100 && Pow10(4) == 10000;
    pos := PutPart(buf, size, 0, f.year, 4, '-');
    pos := PutPart(buf, size, pos, f.month, 2, '-');
    pos := PutPart(buf, size, pos, f.day, 2, ' ');
  }

  method PutClock(buf: array<char>, size: nat, start: nat, f: Fields) returns (pos: nat)
    requires size <= buf.Length && start + 12 < size && f.Valid()
    modifies buf
    ensures pos == start + 12 && buf[..pos] == old(buf[..start]) + ClockText(f)
    ensures Untouched(buf[..], old(buf[..]), pos)
  {
    assert Pow10(2) == 100 && Pow10(3) == 1000;
    pos := PutPart(buf, size, start, f.hour, 2, ':');
    pos := PutPart(buf, size, pos, f.minute, 2, ':');
    pos := PutPart(buf, size, pos, f.second, 2, ':');
    NumberIsPad(f.milli, 3);
    pos := PutNumber(buf, size, pos, f.milli, 3);
    Joined(old(buf[..start]), Pad(f.hour, 2), Pad(f.minute, 2), Pad(f.second, 2), Pad(f.milli, 3));
  }

  lemma Joined(pre: string, a: string, b: string, c: string, d: string)
    ensures pre + (a + ":") + (b + ":") + (c + ":") + d == pre + (a + (":" + (b + (":" + (c + (":" + d))))))
  {
  }
}
