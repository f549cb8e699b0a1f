/** Stored timestamps are compared as text in SQL and as times in Python; both comparisons agree. */
module Timestamps {

  /** A UTC date and time, to the microsecond. */
  datatype DateTime = DateTime(year: nat, month: nat, day: nat, hour: nat, minute: nat, second: nat, micro: nat)

  predicate Leap(year: nat) {
    year % 4 == 0 && (year % 100 != 0 || year % 400 == 0)
  }

  function DaysInMonth(year: nat, month: nat): nat {
    if month == 2 then (if Leap(year) then 29 else 28)
    else if month in {4, 6, 9, 11} then 30 else 31
  }

  predicate Valid(t: DateTime) {
    && 1 <= t.year <= 9999 && 1 <= t.month <= 12 && 1 <= t.day <= DaysInMonth(t.year, t.month)
    && t.hour < 24 && t.minute < 60 && t.second < 60 && t.micro < 1_000_000
  }

  // ---- chronology ------------------------------------------------------------------------------------------------

  function DaysBeforeYear(year: nat): nat
    requires year >= 1
  {
    var y := year - 1;
    y * 365 + y / 4 - y / 100 + y / 400
  }

  function DaysBeforeMonth(year: nat, month: nat): nat
    requires 1 <= month
  {
    if month == 1 then 0 else DaysBeforeMonth(year, month - 1) + DaysInMonth(year, month - 1)
  }

  /** Days since 31 December of year 0. */
  function Ordinal(t: DateTime): nat
    requires Valid(t)
  {
    DaysBeforeYear(t.year) + DaysBeforeMonth(t.year, t.month) + t.day
  }

  /** The instant, in microseconds. */
  function Instant(t: DateTime): nat
    requires Valid(t)
  {
    (((Ordinal(t) * 24 + t.hour) * 60 + t.minute) * 60 + t.second) * 1_000_000 + t.micro
  }

  lemma YearLength(year: nat)
    requires year >= 1
    ensures DaysBeforeYear(year + 1) == DaysBeforeYear(year) + (if Leap(year) then 366 else 365)
  {
    Fourths(year);
    Hundredths(year);
    FourHundredths(year);
    Multiples(year);
  }

  lemma Fourths(year: nat)
    requires year >= 1
    ensures year / 4 == (year - 1) / 4 + (if year % 4 == 0 then 1 else 0)
  {
  }

  lemma Hundredths(year: nat)
    requires year >= 1
    ensures year / 100 == (year - 1) / 100 + (if year % 100 == 0 then 1 else 0)
  {
  }

  lemma FourHundredths(year: nat)
    requires year >= 1
    ensures year / 400 == (year - 1) / 400 + (if year % 400 == 0 then 1 else 0)
  {
  }

  lemma Multiples(year: nat)
    ensures year % 400 == 0 ==> year % 100 == 0
    ensures year % 100 == 0 ==> year % 4 == 0
  {
    if year % 400 == 0 { assert year == 100 * (4 * (year / 400)); }
    if year % 100 == 0 { assert year == 4 * (25 * (year / 100)); }
  }

  lemma {:induction false} YearsOrdered(a: nat, b: nat)
    requires 1 <= a < b
    ensures DaysBeforeYear(a) + (if Leap(a) then 366 else 365) <= DaysBeforeYear(b)
    decreases b
  {
    YearLength(b - 1);
    if a < b - 1 { YearsOrdered(a, b - 1); }
  }

  lemma {:induction false} MonthsOrdered(year: nat, a: nat, b: nat)
    requires 1 <= a < b <= 13
    ensures DaysBeforeMonth(year, a) + DaysInMonth(year, a) <= DaysBeforeMonth(year, b)
    decreases b
  {
    if a < b - 1 { MonthsOrdered(year, a, b - 1); }
  }

  lemma YearFull(year: nat)
    ensures DaysBeforeMonth(year, 13) == if Leap(year) then 366 else 365
  {
    var leap := if Leap(year) then 1 else 0;
    assert DaysBeforeMonth(year, 2) == 31 by { assert DaysBeforeMonth(year, 1) == 0; }
    assert DaysBeforeMonth(year, 3) == 59 + leap;
    assert DaysBeforeMonth(year, 5) == 120 + leap by { assert DaysBeforeMonth(year, 4) == 90 + leap; }
    assert DaysBeforeMonth(year, 7) == 181 + leap by { assert DaysBeforeMonth(year, 6) == 151 + leap; }
    assert DaysBeforeMonth(year, 9) == 243 + leap by { assert DaysBeforeMonth(year, 8) == 212 + leap; }
    assert DaysBeforeMonth(year, 11) == 304 + leap by { assert DaysBeforeMonth(year, 10) == 273 + leap; }
    assert DaysBeforeMonth(year, 12) == 334 + leap;
  }

  predicate DateBefore(a: DateTime, b: DateTime) {
    a.year < b.year || (a.year == b.year && (a.month < b.month || (a.month == b.month && a.day < b.day)))
  }

  lemma DatesOrdered(a: DateTime, b: DateTime)
    requires Valid(a) && Valid(b) && DateBefore(a, b)
    ensures Ordinal(a) < Ordinal(b)
  {
    if a.year < b.year {
      YearsOrdered(a.year, b.year);
      YearFull(a.year);
      MonthsOrdered(a.year, a.month, 13);
    } else if a.month < b.month {
      MonthsOrdered(a.year, a.month, b.month);
    }
  }

  /** Time of day in microseconds. */
  function Clock(t: DateTime): nat {
    ((t.hour * 60 + t.minute) * 60 + t.second) * 1_000_000 + t.micro
  }

  predicate ClockBefore(a: DateTime, b: DateTime) {
    a.hour < b.hour || (a.hour == b.hour && (a.minute < b.minute || (a.minute == b.minute &&
    (a.second < b.second || (a.second == b.second && a.micro < b.micro)))))
  }

  /** Field by field, most significant first. */
  predicate Before(a: DateTime, b: DateTime) {
    DateBefore(a, b) || (a.year == b.year && a.month == b.month && a.day == b.day && ClockBefore(a, b))
  }

  const DAY: nat := 86_400_000_000

  lemma BeforeIsEarlier(a: DateTime, b: DateTime)
    requires Valid(a) && Valid(b) && Before(a, b)
    ensures Instant(a) < Instant(b)
  {
    assert Instant(a) == Ordinal(a) * DAY + Clock(a) && Clock(a) < DAY;
    assert Instant(b) == Ordinal(b) * DAY + Clock(b);
    if DateBefore(a, b) {
      DatesOrdered(a, b);
      assert (Ordinal(b) - Ordinal(a)) * DAY >= DAY;
    }
  }

  lemma BeforeExact(a: DateTime, b: DateTime)
    requires Valid(a) && Valid(b)
    ensures Before(a, b) <==> Instant(a) < Instant(b)
    ensures a == b <==> Instant(a) == Instant(b)
  {
    if Before(a, b) { BeforeIsEarlier(a, b); }
    if Before(b, a) { BeforeIsEarlier(b, a); }
    assert a == b || Before(a, b) || Before(b, a);
  }

  // ---- text ------------------------------------------------------------------------------------------------------

  function Pow10(w: nat): nat {
    if w == 0 then 1 else 10 * Pow10(w - 1)
  }

  /** `n` in exactly `w` digits. */
  function Digits(n: nat, w: nat): (s: string)
    ensures |s| == w
  {
    if w == 0 then "" else Digits(n / 10, w - 1) + ['0' + (n % 10) as char]
  }

  /** Byte-wise order, as SQLite compares text. */
  predicate Less(a: string, b: string) {
    |b| > 0 && (|a| == 0 || a[0] < b[0] || (a[0] == b[0] && Less(a[1..], b[1..])))
  }

  lemma {:induction false} SamePrefix(p: string, a: string, b: string)
    ensures Less(p + a, p + b) <==> Less(a, b)
  {
    if |p| == 0 {
      assert p + a == a && p + b == b;
    } else {
      SamePrefix(p[1..], a, b);
      assert (p + a)[1..] == p[1..] + a && (p + b)[1..] == p[1..] + b;
    }
  }

  lemma {:induction false} DigitsOrdered(n: nat, m: nat, w: nat, a: string, b: string)
    requires n < m < Pow10(w)
    ensures Less(Digits(n, w) + a, Digits(m, w) + b) && !Less(Digits(m, w) + b, Digits(n, w) + a)
  {
    var x, y := ['0' + (n % 10) as char], ['0' + (m % 10) as char];
    assert Digits(n, w) + a == Digits(n / 10, w - 1) + (x + a);
    assert Digits(m, w) + b == Digits(m / 10, w - 1) + (y + b);
    if n / 10 < m / 10 {
      DigitsOrdered(n / 10, m / 10, w - 1, x + a, y + b);
    } else {
      SamePrefix(Digits(n / 10, w - 1), x + a, y + b);
      SamePrefix(Digits(n / 10, w - 1), y + b, x + a);
    }
  }

  /** One fixed-width field decides the order, or passes it on to what follows. */
  lemma Field(n: nat, m: nat, w: nat, a: string, b: string)
    requires n < Pow10(w) && m < Pow10(w)
    ensures Less(Digits(n, w) + a, Digits(m, w) + b) <==> n < m || (n == m && Less(a, b))
  {
    if n < m {
      DigitsOrdered(n, m, w, a, b);
    } else if m < n {
      DigitsOrdered(m, n, w, b, a);
    } else {
      SamePrefix(Digits(n, w), a, b);
    }
  }

  const OFFSET: string := "+00:00"

  /** The fraction is printed only when it is not zero. */
  function Fraction(micro: nat): string {
    if micro == 0 then OFFSET else "." + (Digits(micro, 6) + OFFSET)
  }

  function AfterSeconds(t: DateTime): string {
    Fraction(t.micro)
  }

  function TimeText(t: DateTime): string {
    Digits(t.hour, 2) + (":" + (Digits(t.minute, 2) + (":" + (Digits(t.second, 2) + AfterSeconds(t)))))
  }

  /** `isoformat` of a UTC time. */
  function Iso(t: DateTime): string {
    Digits(t.year, 4) + ("-" + (Digits(t.month, 2) + ("-" + (Digits(t.day, 2) + ("T" + TimeText(t))))))
  }

  /** The mixed case: '+' sorts before '.', so a whole second comes before its fractions. */
  lemma FractionOrder(a: nat, b: nat)
    requires a < 1_000_000 && b < 1_000_000
    ensures Less(Fraction(a), Fraction(b)) <==> a < b
  {
    assert Pow10(6) == 1_000_000;
    if a > 0 && b > 0 {
      SamePrefix(".", Digits(a, 6) + OFFSET, Digits(b, 6) + OFFSET);
      Field(a, b, 6, OFFSET, OFFSET);
      Irreflexive(OFFSET);
    } else if a == 0 && b == 0 {
      Irreflexive(OFFSET);
    } else {
      assert OFFSET[0] == '+';
      if a == 0 { assert Fraction(b)[0] == '.'; } else { assert Fraction(a)[0] == '.'; }
    }
  }

  lemma {:induction false} Irreflexive(s: string)
    ensures !Less(s, s)
  {
    if |s| > 0 { Irreflexive(s[1..]); }
  }

  lemma TimeOrder(a: DateTime, b: DateTime)
    requires Valid(a) && Valid(b)
    ensures Less(TimeText(a), TimeText(b)) <==> ClockBefore(a, b)
  {
    assert Pow10(2) == 100;
    var sa, sb := Digits(a.second, 2) + AfterSeconds(a), Digits(b.second, 2) + AfterSeconds(b);
    var ma, mb := Digits(a.minute, 2) + (":" + sa), Digits(b.minute, 2) + (":" + sb);
    FractionOrder(a.micro, b.micro);
    Field(a.second, b.second, 2, AfterSeconds(a), AfterSeconds(b));
    SamePrefix(":", sa, sb);
    Field(a.minute, b.minute, 2, ":" + sa, ":" + sb);
    SamePrefix(":", ma, mb);
    Field(a.hour, b.hour, 2, ":" + ma, ":" + mb);
  }

  lemma IsoOrder(a: DateTime, b: DateTime)
    requires Valid(a) && Valid(b)
    ensures Less(Iso(a), Iso(b)) <==> Before(a, b)
  {
    assert Pow10(2) == 100 && Pow10(4) == 10_000;
    var da, db := Digits(a.day, 2) + ("T" + TimeText(a)), Digits(b.day, 2) + ("T" + TimeText(b));
    var ma, mb := Digits(a.month, 2) + ("-" + da), Digits(b.month, 2) + ("-" + db);
    TimeOrder(a, b);
    SamePrefix("T", TimeText(a), TimeText(b));
    Field(a.day, b.day, 2, "T" + TimeText(a), "T" + TimeText(b));
    SamePrefix("-", da, db);
    Field(a.month, b.month, 2, "-" + da, "-" + db);
    SamePrefix("-", ma, mb);
    Field(a.year, b.year, 4, "-" + ma, "-" + mb);
  }

  /** Comparing two stored timestamps as text is comparing the instants they denote, whether or not either has a
      fraction: "expires_at > now" and "expires_at <= now" select the same rows both ways. */
  lemma TextOrderIsTimeOrder(a: DateTime, b: DateTime)
    requires Valid(a) && Valid(b)
    ensures Less(Iso(a), Iso(b)) <==> Instant(a) < Instant(b)
    ensures Iso(a) == Iso(b) <==> Instant(a) == Instant(b)
  {
    IsoOrder(a, b);
    IsoOrder(b, a);
    BeforeExact(a, b);
    BeforeExact(b, a);
    Irreflexive(Iso(a));
  }
}
