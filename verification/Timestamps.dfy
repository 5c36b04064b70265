/** The text encoding of instants used by every timestamp column (persistence/sqlite.py),
    and the proof that comparing the texts compares the instants. */
module Timestamps {
  import opened Wrappers
  import opened Ordering

  const SECOND := 1_000_000
  const MAX_DAYS := 3652059
  const MAX_TICKS := MAX_DAYS * 86400 * SECOND

  /** Microseconds since 0001-01-01T00:00:00Z, up to the last one of year 9999. */
  type Instant = t: int | 0 <= t < MAX_TICKS

  /** The calendar fields of a UTC datetime. */
  datatype DateTime = DateTime(year: nat, month: nat, day: nat, hour: nat, minute: nat, second: nat, micro: nat)

  // ---- The proleptic Gregorian calendar ----

  predicate Leap(y: int) {
    y % 4 == 0 && (y % 100 != 0 || y % 400 == 0)
  }

  /** Days before 1 January of year y. */
  function DaysBeforeYear(y: int): int
    requires y >= 1
  {
    (y - 1) * 365 + (y - 1) / 4 - (y - 1) / 100 + (y - 1) / 400
  }

  function DaysInMonth(y: int, m: int): nat {
    if m == 2 then (if Leap(y) then 29 else 28)
    else if m == 4 || m == 6 || m == 9 || m == 11 then 30
    else 31
  }

  function DaysBeforeMonth(y: int, m: int): nat
    requires 1 <= m <= 13
  {
    if m == 1 then 0 else DaysBeforeMonth(y, m - 1) + DaysInMonth(y, m - 1)
  }

  predicate Valid(d: DateTime) {
    && 1 <= d.year <= 9999 && 1 <= d.month <= 12 && 1 <= d.day <= DaysInMonth(d.year, d.month)
    && d.hour < 24 && d.minute < 60 && d.second < 60 && d.micro < SECOND
  }

  function DayNumber(d: DateTime): int
    requires Valid(d)
  {
    DaysBeforeYear(d.year) + DaysBeforeMonth(d.year, d.month) + d.day - 1
  }

  function MicroOfDay(d: DateTime): int
    requires Valid(d)
  {
    ((d.hour * 60 + d.minute) * 60 + d.second) * SECOND + d.micro
  }

  /** The instant a datetime denotes. */
  function Ticks(d: DateTime): int
    requires Valid(d)
  {
    DayNumber(d) * (86400 * SECOND) + MicroOfDay(d)
  }

  lemma YearLength(y: int)
    requires y >= 1
    ensures DaysBeforeYear(y + 1) == DaysBeforeYear(y) + (if Leap(y) then 366 else 365)
  {
    assert y / 4 == (y - 1) / 4 + (if y % 4 == 0 then 1 else 0);
    assert y / 100 == (y - 1) / 100 + (if y % 100 == 0 then 1 else 0);
    assert y / 400 == (y - 1) / 400 + (if y % 400 == 0 then 1 else 0);
  }

  lemma {:induction false} YearsOrdered(y: int, z: int)
    requires 1 <= y <= z
    ensures DaysBeforeYear(y) <= DaysBeforeYear(z)
    decreases z - y
  {
    if y < z {
      YearLength(y);
      YearsOrdered(y + 1, z);
    }
  }

  lemma {:induction false} MonthsOrdered(y: int, m: int, n: int)
    requires 1 <= m <= n <= 13
    ensures DaysBeforeMonth(y, m) <= DaysBeforeMonth(y, n)
  {
    if m < n { MonthsOrdered(y, m, n - 1); }
  }

  lemma MonthsFillYear(y: int)
    ensures DaysBeforeMonth(y, 13) == if Leap(y) then 366 else 365
  {
    assert DaysBeforeMonth(y, 2) == 31;
    assert DaysBeforeMonth(y, 5) == DaysBeforeMonth(y, 3) + 61;
    assert DaysBeforeMonth(y, 7) == DaysBeforeMonth(y, 5) + 61;
    assert DaysBeforeMonth(y, 9) == DaysBeforeMonth(y, 7) + 62;
    assert DaysBeforeMonth(y, 11) == DaysBeforeMonth(y, 9) + 61;
  }

  /** The year, searching upwards from y, that contains a day. */
  function YearOf(y: int, day: int): (r: int)
    requires 1 <= y <= 9999 && DaysBeforeYear(y) <= day < MAX_DAYS
    ensures y <= r <= 9999 && DaysBeforeYear(r) <= day < DaysBeforeYear(r + 1)
    decreases 10000 - y
  {
    if day < DaysBeforeYear(y + 1) then y else YearOf(y + 1, day)
  }

  function MonthOf(y: int, m: int, day: int): (r: int)
    requires 1 <= m <= 12 && DaysBeforeMonth(y, m) <= day < DaysBeforeMonth(y, 13)
    ensures m <= r <= 12 && DaysBeforeMonth(y, r) <= day < DaysBeforeMonth(y, r + 1)
    decreases 13 - m
  {
    if day < DaysBeforeMonth(y, m + 1) then m else MonthOf(y, m + 1, day)
  }

  /** The calendar reading of an instant. */
  function FromTicks(t: Instant): (d: DateTime)
    ensures Valid(d) && Ticks(d) == t
  {
    var day, rest := t / (86400 * SECOND), t % (86400 * SECOND);
    var year := YearOf(1, day);
    YearLength(year);
    MonthsFillYear(year);
    var inYear := day - DaysBeforeYear(year);
    var month := MonthOf(year, 1, inYear);
    var seconds := rest / SECOND;
    DateTime(year, month, inYear - DaysBeforeMonth(year, month) + 1,
             seconds / 3600, seconds / 60 % 60, seconds % 60, rest % SECOND)
  }

  /** Field-by-field order, from the year down. */
  predicate Earlier(a: DateTime, b: DateTime) {
    a.year < b.year || (a.year == b.year &&
    (a.month < b.month || (a.month == b.month &&
    (a.day < b.day || (a.day == b.day &&
    (a.hour < b.hour || (a.hour == b.hour &&
    (a.minute < b.minute || (a.minute == b.minute &&
    (a.second < b.second || (a.second == b.second && a.micro < b.micro)))))))))))
  }

  lemma DayInYear(d: DateTime)
    requires Valid(d)
    ensures DaysBeforeYear(d.year) <= DayNumber(d) < DaysBeforeYear(d.year + 1)
  {
    MonthsOrdered(d.year, 1, d.month);
    MonthsOrdered(d.year, d.month + 1, 13);
    MonthsFillYear(d.year);
    YearLength(d.year);
  }

  lemma DaysOrdered(a: DateTime, b: DateTime)
    requires Valid(a) && Valid(b)
    requires a.year < b.year || (a.year == b.year && (a.month < b.month || (a.month == b.month && a.day < b.day)))
    ensures DayNumber(a) < DayNumber(b)
  {
    if a.year < b.year {
      DayInYear(a);
      DayInYear(b);
      YearsOrdered(a.year + 1, b.year);
    } else if a.month < b.month {
      MonthsOrdered(a.year, a.month + 1, b.month);
    }
  }

  lemma MicroOfDayOrdered(a: DateTime, b: DateTime)
    requires Valid(a) && Valid(b)
    ensures 0 <= MicroOfDay(a) < 86400 * SECOND
    ensures a.hour < b.hour || (a.hour == b.hour && (a.minute < b.minute || (a.minute == b.minute &&
            (a.second < b.second || (a.second == b.second && a.micro < b.micro)))))
       ==> MicroOfDay(a) < MicroOfDay(b)
  {}

  lemma EarlierIsSmaller(a: DateTime, b: DateTime)
    requires Valid(a) && Valid(b) && Earlier(a, b)
    ensures Ticks(a) < Ticks(b)
  {
    MicroOfDayOrdered(a, b);
    MicroOfDayOrdered(b, a);
    if a.year == b.year && a.month == b.month && a.day == b.day {
      assert DayNumber(a) == DayNumber(b);
    } else {
      DaysOrdered(a, b);
      DayStep(DayNumber(a), DayNumber(b), MicroOfDay(a), MicroOfDay(b));
    }
  }

  lemma DayStep(day: int, later: int, micro: int, other: int)
    requires day < later && 0 <= micro < 86400 * SECOND && 0 <= other
    ensures day * (86400 * SECOND) + micro < later * (86400 * SECOND) + other
  {}

  /** Field order is time order, so every instant has exactly one calendar reading. */
  lemma CalendarIsTime(a: DateTime, b: DateTime)
    requires Valid(a) && Valid(b)
    ensures Earlier(a, b) <==> Ticks(a) < Ticks(b)
    ensures a == b <==> Ticks(a) == Ticks(b)
  {
    if Earlier(a, b) {
      EarlierIsSmaller(a, b);
    } else if Earlier(b, a) {
      EarlierIsSmaller(b, a);
    } else {
      assert a == b;
    }
  }

  lemma TicksInRange(d: DateTime)
    requires Valid(d)
    ensures 0 <= Ticks(d) < MAX_TICKS
  {
    DayInYear(d);
    YearsOrdered(1, d.year);
    YearsOrdered(d.year + 1, 10000);
    assert 0 <= MicroOfDay(d) < 86400 * SECOND;
  }

  // ---- The text ----

  /** The day of the year each month starts on, the leap day counted from March on. */
  lemma MonthStarts(y: int)
    ensures var l := if (y % 4 == 0 && y % 100 != 0) || y % 400 == 0 then 1 else 0;
            && DaysBeforeMonth(y, 1) == 0 && DaysBeforeMonth(y, 2) == 31 && DaysBeforeMonth(y, 3) == 59 + l
            && DaysBeforeMonth(y, 4) == 90 + l && DaysBeforeMonth(y, 5) == 120 + l && DaysBeforeMonth(y, 6) == 151 + l
            && DaysBeforeMonth(y, 7) == 181 + l && DaysBeforeMonth(y, 8) == 212 + l && DaysBeforeMonth(y, 9) == 243 + l
            && DaysBeforeMonth(y, 10) == 273 + l && DaysBeforeMonth(y, 11) == 304 + l
            && DaysBeforeMonth(y, 12) == 334 + l
  {
    hide DaysBeforeMonth, Leap;
    LeapYears(y);
    FirstMonth(y);
    for m := 1 to 12
      invariant forall k :: 1 <= k < m ==> DaysBeforeMonth(y, k + 1) == DaysBeforeMonth(y, k) + DaysInMonth(y, k)
    {
      NextMonth(y, m);
    }
  }

  lemma LeapYears(y: int)
    ensures Leap(y) <==> (y % 4 == 0 && y % 100 != 0) || y % 400 == 0
  {}

  lemma FirstMonth(y: int)
    ensures DaysBeforeMonth(y, 1) == 0
  {}

  lemma NextMonth(y: int, m: int)
    requires 1 <= m <= 12
    ensures DaysBeforeMonth(y, m + 1) == DaysBeforeMonth(y, m) + DaysInMonth(y, m)
  {
    hide DaysInMonth;
  }

  lemma Reading(t: Instant, d: DateTime)
    requires Valid(d) && Ticks(d) == t
    ensures FromTicks(t) == d
  {
    hide FromTicks, Ticks;
    CalendarIsTime(FromTicks(t), d);
  }

  /** Some instants everybody knows: the first, the Unix epoch, a leap day, and the last. */
  lemma KnownInstants()
    ensures FromTicks(0) == DateTime(1, 1, 1, 0, 0, 0, 0)
    ensures FromTicks(62_135_596_800 * SECOND) == DateTime(1970, 1, 1, 0, 0, 0, 0)
    ensures FromTicks((62_135_596_800 + 951_827_696) * SECOND + 789) == DateTime(2000, 2, 29, 12, 34, 56, 789)
    ensures FromTicks(MAX_TICKS - 1) == DateTime(9999, 12, 31, 23, 59, 59, 999_999)
  {
    hide FromTicks, DaysBeforeMonth;
    MonthStarts(1);
    MonthStarts(1970);
    MonthStarts(2000);
    MonthStarts(9999);
    Reading(0, DateTime(1, 1, 1, 0, 0, 0, 0));
    Reading(62_135_596_800 * SECOND, DateTime(1970, 1, 1, 0, 0, 0, 0));
    Reading((62_135_596_800 + 951_827_696) * SECOND + 789, DateTime(2000, 2, 29, 12, 34, 56, 789));
    Reading(MAX_TICKS - 1, DateTime(9999, 12, 31, 23, 59, 59, 999_999));
  }

  function Pow10(w: nat): nat {
    if w == 0 then 1 else 10 * Pow10(w - 1)
  }

  function Digit(n: nat): char
    requires n < 10
  {
    '0' + n as char
  }

  /** n in exactly w decimal digits. */
  function Digits(n: nat, w: nat): (s: string)
    requires n < Pow10(w)
    ensures |s| == w
  {
    if w == 0 then [] else Digits(n / 10, w - 1) + [Digit(n % 10)]
  }

  /** `datetime.isoformat()` on UTC fields: the fraction is left out when it is zero. */
  function IsoFields(d: DateTime): string
    requires Valid(d)
  {
    assert Pow10(2) == 100 && Pow10(4) == 10000;
    Digits(d.year, 4) + "-" + (Digits(d.month, 2) + "-" + (Digits(d.day, 2) + "T" + TimeOfDay(d)))
  }

  function TimeOfDay(d: DateTime): string
    requires Valid(d)
  {
    assert Pow10(2) == 100;
    Digits(d.hour, 2) + ":" + (Digits(d.minute, 2) + ":" + (Digits(d.second, 2) + Fraction(d.micro)))
  }

  function Fraction(micro: nat): string
    requires micro < SECOND
  {
    assert Pow10(6) == SECOND;
    if micro == 0 then "+00:00" else "." + (Digits(micro, 6) + "+00:00")
  }

  /** The column text of an instant (`_iso`). */
  function Iso(t: Instant): string {
    IsoFields(FromTicks(t))
  }

  lemma {:induction false} DigitsOrder(m: nat, n: nat, w: nat)
    requires m < Pow10(w) && n < Pow10(w)
    ensures StrLess(Digits(m, w), Digits(n, w)) <==> m < n
    ensures Digits(m, w) == Digits(n, w) <==> m == n
  {
    if w > 0 {
      var a, b := Digits(m / 10, w - 1), Digits(n / 10, w - 1);
      var s, t := [Digit(m % 10)], [Digit(n % 10)];
      DigitsOrder(m / 10, n / 10, w - 1);
      if m / 10 == n / 10 {
        StrPrefix(a, s, t);
        assert s == t <==> m % 10 == n % 10;
        assert m == n <==> m % 10 == n % 10;
        assert (a + s)[w - 1] == s[0] && (b + t)[w - 1] == t[0];
      } else {
        StrEqualWidth(a, s, b, t);
        assert a == (a + s)[..w - 1] && b == (b + t)[..w - 1];
      }
    }
  }

  /** A fixed-width number followed by text compares number first. */
  lemma FieldOrder(m: nat, s: string, n: nat, t: string, w: nat)
    requires m < Pow10(w) && n < Pow10(w)
    ensures StrLess(Digits(m, w) + s, Digits(n, w) + t) <==> m < n || (m == n && StrLess(s, t))
  {
    DigitsOrder(m, n, w);
    if m == n {
      StrPrefix(Digits(m, w), s, t);
    } else {
      StrEqualWidth(Digits(m, w), s, Digits(n, w), t);
    }
  }

  /** The same with a separator after the number. */
  lemma SeparatedOrder(m: nat, s: string, n: nat, t: string, w: nat, sep: string)
    requires m < Pow10(w) && n < Pow10(w)
    ensures StrLess(Digits(m, w) + sep + s, Digits(n, w) + sep + t) <==> m < n || (m == n && StrLess(s, t))
  {
    assert Digits(m, w) + sep + s == Digits(m, w) + (sep + s);
    assert Digits(n, w) + sep + t == Digits(n, w) + (sep + t);
    FieldOrder(m, sep + s, n, sep + t, w);
    StrPrefix(sep, s, t);
  }

  /** The omitted fraction still sorts first, because '+' precedes '.'. */
  lemma FractionOrder(m: nat, n: nat)
    requires m < SECOND && n < SECOND
    ensures StrLess(Fraction(m), Fraction(n)) <==> m < n
  {
    assert Pow10(6) == SECOND;
    StrTrichotomy("+00:00", "+00:00");
    if m > 0 && n > 0 {
      var s, t := Digits(m, 6) + "+00:00", Digits(n, 6) + "+00:00";
      FieldOrder(m, "+00:00", n, "+00:00", 6);
      StrPrefix(".", s, t);
    }
  }

  lemma TimeOfDayOrder(a: DateTime, b: DateTime)
    requires Valid(a) && Valid(b)
    ensures StrLess(TimeOfDay(a), TimeOfDay(b))
       <==> a.hour < b.hour || (a.hour == b.hour && (a.minute < b.minute || (a.minute == b.minute &&
            (a.second < b.second || (a.second == b.second && a.micro < b.micro)))))
  {
    assert Pow10(2) == 100;
    var s, t := Digits(a.second, 2) + Fraction(a.micro), Digits(b.second, 2) + Fraction(b.micro);
    FractionOrder(a.micro, b.micro);
    FieldOrder(a.second, Fraction(a.micro), b.second, Fraction(b.micro), 2);
    SeparatedOrder(a.minute, s, b.minute, t, 2, ":");
    SeparatedOrder(a.hour, Digits(a.minute, 2) + ":" + s, b.hour, Digits(b.minute, 2) + ":" + t, 2, ":");
  }

  lemma FieldTextOrder(a: DateTime, b: DateTime)
    requires Valid(a) && Valid(b)
    ensures StrLess(IsoFields(a), IsoFields(b)) <==> Earlier(a, b)
  {
    assert Pow10(2) == 100 && Pow10(4) == 10000;
    TimeOfDayOrder(a, b);
    var s, t := TimeOfDay(a), TimeOfDay(b);
    SeparatedOrder(a.day, s, b.day, t, 2, "T");
    var s', t' := Digits(a.day, 2) + "T" + s, Digits(b.day, 2) + "T" + t;
    SeparatedOrder(a.month, s', b.month, t', 2, "-");
    SeparatedOrder(a.year, Digits(a.month, 2) + "-" + s', b.year, Digits(b.month, 2) + "-" + t', 4, "-");
  }

  /** Comparing column texts compares instants, and different instants have different texts. */
  lemma TextOrderIsTimeOrder(a: Instant, b: Instant)
    ensures StrLess(Iso(a), Iso(b)) <==> a < b
    ensures Iso(a) == Iso(b) <==> a == b
  {
    FieldTextOrder(FromTicks(a), FromTicks(b));
    CalendarIsTime(FromTicks(a), FromTicks(b));
    StrTrichotomy(Iso(a), Iso(b));
    FieldTextOrder(FromTicks(b), FromTicks(a));
    CalendarIsTime(FromTicks(b), FromTicks(a));
  }

  // ---- Reading the text back ----

  function DigitValue(c: char): Option<nat> {
    if '0' <= c <= '9' then Some(c as nat - '0' as nat) else None
  }

  /** A string of decimal digits as a number. */
  function ReadDigits(s: string): Option<nat> {
    if |s| == 0 then Some(0)
    else
      var high, low := ReadDigits(s[..|s| - 1]), DigitValue(s[|s| - 1]);
      if high.Some? && low.Some? then Some(10 * high.value + low.value) else None
  }

  /** `datetime.fromisoformat` on the two shapes `_iso` writes. */
  function ReadFields(s: string): Option<DateTime> {
    if |s| != 25 && |s| != 32 then None
    else if s[4] != '-' || s[7] != '-' || s[10] != 'T' || s[13] != ':' || s[16] != ':' then None
    else if s[|s| - 6..] != "+00:00" || (|s| == 32 && s[19] != '.') then None
    else
      var year, month, day := ReadDigits(s[..4]), ReadDigits(s[5..7]), ReadDigits(s[8..10]);
      var hour, minute, second := ReadDigits(s[11..13]), ReadDigits(s[14..16]), ReadDigits(s[17..19]);
      var micro := if |s| == 32 then ReadDigits(s[20..26]) else Some(0);
      if year.None? || month.None? || day.None? || hour.None? || minute.None? || second.None? || micro.None? then None
      else
        var d := DateTime(year.value, month.value, day.value, hour.value, minute.value, second.value, micro.value);
        if Valid(d) then Some(d) else None
  }

  /** `_parse_dt`. */
  function Parse(s: string): Option<Instant> {
    var d := ReadFields(s);
    if d.None? then None else
    TicksInRange(d.value);
    Some(Ticks(d.value))
  }

  lemma DigitBack(n: nat)
    requires n < 10
    ensures DigitValue(Digit(n)) == Some(n)
  {}

  lemma ReadDigitsSnoc(s: string, c: char)
    ensures ReadDigits(s + [c]) ==
            if ReadDigits(s).Some? && DigitValue(c).Some? then Some(10 * ReadDigits(s).value + DigitValue(c).value)
            else None
  {
    assert (s + [c])[..|s|] == s;
  }

  lemma {:induction false} ReadDigitsBack(n: nat, w: nat)
    requires n < Pow10(w)
    ensures ReadDigits(Digits(n, w)) == Some(n)
  {
    if w > 0 {
      var front, last := Digits(n / 10, w - 1), Digit(n % 10);
      ReadDigitsBack(n / 10, w - 1);
      ReadDigitsSnoc(front, last);
      assert Digits(n, w) == front + [last];
      DigitBack(n % 10);
      assert 10 * (n / 10) + n % 10 == n;
    }
  }

  /** Where each field of the text sits. */
  lemma TimeLayout(d: DateTime)
    requires Valid(d)
    ensures var s := TimeOfDay(d);
            && |s| == (if d.micro == 0 then 14 else 21)
            && s[2] == s[5] == ':' && s[8..] == Fraction(d.micro)
            && s[..2] == Digits(d.hour, 2) && s[3..5] == Digits(d.minute, 2) && s[6..8] == Digits(d.second, 2)
  {
    var tail := Digits(d.second, 2) + Fraction(d.micro);
    var rest := Digits(d.minute, 2) + ":" + tail;
    var s := TimeOfDay(d);
    assert s == Digits(d.hour, 2) + ":" + rest;
    assert s[3..] == rest && rest[3..] == tail;
    assert s[6..] == tail;
    assert s[6..8] == tail[..2] && s[3..5] == rest[..2] && s[8..] == tail[2..];
  }

  lemma DateLayout(d: DateTime)
    requires Valid(d)
    ensures var s := IsoFields(d);
            && |s| == 11 + |TimeOfDay(d)| && s[11..] == TimeOfDay(d)
            && s[4] == s[7] == '-' && s[10] == 'T'
            && s[..4] == Digits(d.year, 4) && s[5..7] == Digits(d.month, 2) && s[8..10] == Digits(d.day, 2)
  {
    var tail := Digits(d.day, 2) + "T" + TimeOfDay(d);
    var rest := Digits(d.month, 2) + "-" + tail;
    var s := IsoFields(d);
    assert s == Digits(d.year, 4) + "-" + rest;
    assert s[5..] == rest && rest[3..] == tail;
    assert s[8..] == tail;
    assert s[8..10] == tail[..2] && s[5..7] == rest[..2] && s[11..] == tail[3..] && s[10] == tail[2];
  }

  lemma FractionBack(micro: nat)
    requires micro < SECOND
    ensures var f := Fraction(micro);
            && f[|f| - 6..] == "+00:00"
            && (micro > 0 ==> |f| == 13 && f[0] == '.' && ReadDigits(f[1..7]) == Some(micro))
  {
    assert Pow10(6) == SECOND;
    if micro > 0 {
      var f := Fraction(micro);
      assert f[1..7] == Digits(micro, 6);
      ReadDigitsBack(micro, 6);
    }
  }

  /** The texts of the fields, at the offsets the reader looks at. */
  lemma IsoLayout(d: DateTime)
    requires Valid(d)
    ensures var s := IsoFields(d);
            && |s| == (if d.micro == 0 then 25 else 32)
            && s[4] == s[7] == '-' && s[10] == 'T' && s[13] == s[16] == ':' && s[|s| - 6..] == "+00:00"
            && s[11..13] == Digits(d.hour, 2) && s[14..16] == Digits(d.minute, 2) && s[17..19] == Digits(d.second, 2)
            && (d.micro > 0 ==> s[19] == '.' && ReadDigits(s[20..26]) == Some(d.micro))
  {
    var s, t, f := IsoFields(d), TimeOfDay(d), Fraction(d.micro);
    DateLayout(d);
    TimeLayout(d);
    FractionBack(d.micro);
    assert s[11..13] == t[..2] && s[14..16] == t[3..5] && s[17..19] == t[6..8];
    assert s[13] == t[2] && s[16] == t[5];
    assert s[19..] == t[8..];
    assert s[|s| - 6..] == f[|f| - 6..];
    if d.micro > 0 {
      assert s[20..26] == f[1..7] && s[19] == f[0];
    }
  }

  lemma ReadFieldsBack(d: DateTime)
    requires Valid(d)
    ensures ReadFields(IsoFields(d)) == Some(d)
  {
    assert Pow10(2) == 100 && Pow10(4) == 10000;
    IsoLayout(d);
    DateLayout(d);
    ReadDigitsBack(d.year, 4);
    ReadDigitsBack(d.month, 2);
    ReadDigitsBack(d.day, 2);
    ReadDigitsBack(d.hour, 2);
    ReadDigitsBack(d.minute, 2);
    ReadDigitsBack(d.second, 2);
  }

  /** `_parse_dt` undoes `_iso` for every instant of years 1 to 9999. */
  lemma ParseUndoesIso(t: Instant)
    ensures Parse(Iso(t)) == Some(t)
  {
    ReadFieldsBack(FromTicks(t));
  }

  /** A text that some instant was written as. */
  ghost predicate IsInstant(text: string) {
    exists t: Instant :: text == Iso(t)
  }

  /** Reading such a text and writing it again changes nothing. */
  lemma Rewritten(text: string)
    requires IsInstant(text)
    ensures Parse(text).Some? && Iso(Parse(text).value) == text
  {
    hide Iso, Parse;
    var t: Instant :| text == Iso(t);
    ParseUndoesIso(t);
  }

  lemma TwoDigits(n: nat)
    requires n < 100
    ensures n < Pow10(2) && Digits(n, 2) == [Digit(n / 10), Digit(n % 10)]
  {
    assert Pow10(0) == 1 && Pow10(1) == 10 && Pow10(2) == 100;
    assert Digits(n / 10, 1) == [Digit(n / 10)];
  }

  lemma FourDigits(n: nat)
    requires n < 10000
    ensures n < Pow10(4) && Digits(n, 4) == [Digit(n / 1000), Digit(n / 100 % 10), Digit(n / 10 % 10), Digit(n % 10)]
  {
    hide Digit, Digits, Pow10;
    Powers();
    Quotients(n);
    Quotients(n / 10);
    TwoDigits(n / 100);
    LastDigit(n, 4);
    LastDigit(n / 10, 3);
  }

  lemma Powers()
    ensures Pow10(2) == 100 && Pow10(3) == 1000 && Pow10(4) == 10000 && Pow10(5) == 100000 && Pow10(6) == SECOND
  {
    assert Pow10(2) == 100 && Pow10(4) == 10000;
  }

  lemma Quotients(n: nat)
    ensures n / 100 / 1000 == n / 100000 && n / 100 / 100 == n / 10000 && n / 100 / 10 == n / 1000
    ensures n / 10 / 10 == n / 100
  {}

  lemma SixDigits(n: nat)
    requires n < SECOND
    ensures n < Pow10(6)
    ensures Digits(n, 6) == [Digit(n / 100000), Digit(n / 10000 % 10), Digit(n / 1000 % 10), Digit(n / 100 % 10),
                             Digit(n / 10 % 10), Digit(n % 10)]
  {
    hide Digit, Digits, Pow10;
    Powers();
    Quotients(n);
    FourDigits(n / 100);
    LastDigit(n, 6);
    LastDigit(n / 10, 5);
  }

  lemma LastDigit(n: nat, w: nat)
    requires w > 0 && n < Pow10(w)
    ensures n / 10 < Pow10(w - 1) && Digits(n, w) == Digits(n / 10, w - 1) + [Digit(n % 10)]
  {
    hide Digit;
  }

  /** Year, month, day, hour, minute and second in fixed width with their separators, six digits of fraction unless
      it is zero, and the UTC offset. */
  lemma TextLayout(d: DateTime)
    requires Valid(d)
    ensures var fraction := if d.micro == 0 then "" else
                            ['.', Digit(d.micro / 100000), Digit(d.micro / 10000 % 10), Digit(d.micro / 1000 % 10),
                             Digit(d.micro / 100 % 10), Digit(d.micro / 10 % 10), Digit(d.micro % 10)];
            IsoFields(d) ==
              [Digit(d.year / 1000), Digit(d.year / 100 % 10), Digit(d.year / 10 % 10), Digit(d.year % 10), '-',
               Digit(d.month / 10), Digit(d.month % 10), '-', Digit(d.day / 10), Digit(d.day % 10), 'T',
               Digit(d.hour / 10), Digit(d.hour % 10), ':', Digit(d.minute / 10), Digit(d.minute % 10), ':',
               Digit(d.second / 10), Digit(d.second % 10)] + fraction + ['+', '0', '0', ':', '0', '0']
  {
    hide Digits, Pow10, Digit;
    FourDigits(d.year);
    TwoDigits(d.month);
    TwoDigits(d.day);
    TwoDigits(d.hour);
    TwoDigits(d.minute);
    TwoDigits(d.second);
    SixDigits(d.micro);
  }

  lemma DigitCharacters()
    ensures Digit(0) == '0' && Digit(1) == '1' && Digit(2) == '2' && Digit(3) == '3' && Digit(4) == '4'
    ensures Digit(5) == '5' && Digit(6) == '6' && Digit(7) == '7' && Digit(8) == '8' && Digit(9) == '9'
  {}
}
