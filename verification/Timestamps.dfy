/**
  The state database stores UTC instants as ISO strings and compares the strings. Here the
  lexicographic order on those strings is proved to be the order of the instants, so every
  comparison elsewhere in this project may be read as one on instants.
 */
module Timestamps {
  import opened Common

  /** A UTC date and time, to the microsecond. */
  datatype Instant = Instant(year: nat, month: nat, day: nat, hour: nat, minute: nat, second: nat, micro: nat)

  predicate Leap(year: nat) {
    year % 4 == 0 && (year % 100 != 0 || year % 400 == 0)
  }

  function DaysInMonth(year: nat, month: nat): nat {
    if month == 2 then if Leap(year) then 29 else 28
    else if month == 4 || month == 6 || month == 9 || month == 11 then 30
    else 31
  }

  predicate Valid(t: Instant) {
    && 1 <= t.year <= 9999 && 1 <= t.month <= 12 && 1 <= t.day <= DaysInMonth(t.year, t.month)
    && t.hour < 24 && t.minute < 60 && t.second < 60 && t.micro < 1_000_000
  }

  // ---------------------------------------------------------------- instants as numbers

  function DaysBeforeYear(year: nat): int
    requires 1 <= year
  {
    var y := year - 1;
    365 * y + y / 4 - y / 100 + y / 400
  }

  function DaysBeforeMonth(year: nat, month: nat): nat
    requires 1 <= month
  {
    if month == 1 then 0 else DaysBeforeMonth(year, month - 1) + DaysInMonth(year, month - 1)
  }

  /** Days since the day before year 1. */
  function DayNumber(year: nat, month: nat, day: nat): int
    requires 1 <= year && 1 <= month
  {
    DaysBeforeYear(year) + DaysBeforeMonth(year, month) + day
  }

  function MicroOfDay(t: Instant): nat {
    ((t.hour * 60 + t.minute) * 60 + t.second) * 1_000_000 + t.micro
  }

  /** Elapsed microseconds: the chronological position of the instant. */
  function Elapsed(t: Instant): int
    requires Valid(t)
  {
    DayNumber(t.year, t.month, t.day) * 86_400_000_000 + MicroOfDay(t)
  }

  // ---------------------------------------------------------------- instants as strings

  function Pad(n: nat, width: nat): string {
    if width == 0 then "" else Pad(n / 10, width - 1) + [('0' as int + n % 10) as char]
  }

  function Fraction(micro: nat): string {
    (if micro == 0 then "" else "." + Pad(micro, 6)) + "+00:00"
  }

  /** The text of `datetime.isoformat()` for a UTC instant; a zero fraction is left out. */
  function IsoFormat(t: Instant): string {
    Pad(t.year, 4) + ("-" + (Pad(t.month, 2) + ("-" + (Pad(t.day, 2) + ("T" +
    (Pad(t.hour, 2) + (":" + (Pad(t.minute, 2) + (":" + (Pad(t.second, 2) + Fraction(t.micro)))))))))))
  }

  /** Code-point order on strings, as Python and SQLite compare text. */
  predicate StrLess(a: string, b: string) {
    if b == [] then false
    else if a == [] then true
    else a[0] < b[0] || (a[0] == b[0] && StrLess(a[1..], b[1..]))
  }

  function StrMax(a: string, b: string): string {
    if StrLess(a, b) then b else a
  }

  // ---------------------------------------------------------------- string order

  function Pow10(w: nat): nat {
    if w == 0 then 1 else 10 * Pow10(w - 1)
  }

  lemma SameHead(c: char, x: string, y: string)
    ensures StrLess([c] + x, [c] + y) <==> StrLess(x, y)
  {
  }

  lemma {:induction false} NotLessThanItself(x: string)
    ensures !StrLess(x, x)
  {
    if x != [] {
      NotLessThanItself(x[1..]);
    }
  }

  /** Equal-width decimal fields compare as numbers, and on a tie the rest decides. */
  lemma {:induction false} PadOrder(n: nat, m: nat, w: nat, x: string, y: string)
    requires n < Pow10(w) && m < Pow10(w)
    ensures StrLess(Pad(n, w) + x, Pad(m, w) + y) <==> n < m || (n == m && StrLess(x, y))
  {
    if w == 0 {
      assert Pad(n, 0) + x == x && Pad(m, 0) + y == y;
    } else {
      var c, d := ('0' as int + n % 10) as char, ('0' as int + m % 10) as char;
      assert Pad(n, w) + x == Pad(n / 10, w - 1) + ([c] + x);
      assert Pad(m, w) + y == Pad(m / 10, w - 1) + ([d] + y);
      PadOrder(n / 10, m / 10, w - 1, [c] + x, [d] + y);
      assert ([c] + x)[1..] == x && ([d] + y)[1..] == y;
    }
  }

  /** A separated field: its number decides, then the rest after the separator. */
  lemma FieldOrder(n: nat, m: nat, w: nat, c: char, x: string, y: string)
    requires n < Pow10(w) && m < Pow10(w)
    ensures StrLess(Pad(n, w) + ([c] + x), Pad(m, w) + ([c] + y)) <==> n < m || (n == m && StrLess(x, y))
  {
    PadOrder(n, m, w, [c] + x, [c] + y);
    SameHead(c, x, y);
  }

  lemma FractionOrder(a: nat, b: nat)
    requires a < 1_000_000 && b < 1_000_000
    ensures StrLess(Fraction(a), Fraction(b)) <==> a < b
  {
    var offset := "+00:00";
    NotLessThanItself(offset);
    if a != 0 && b != 0 {
      assert Pow10(6) == 1_000_000 by { assert Pow10(3) == 1000; }
      PadOrder(a, b, 6, offset, offset);
      SameHead('.', Pad(a, 6) + offset, Pad(b, 6) + offset);
      assert Fraction(a) == ['.'] + (Pad(a, 6) + offset) && Fraction(b) == ['.'] + (Pad(b, 6) + offset);
    } else {
      // '+' precedes '.', so a text without a fraction precedes one with a fraction.
      assert Fraction(a)[0] == if a == 0 then '+' else '.';
      assert Fraction(b)[0] == if b == 0 then '+' else '.';
      assert Fraction(0) == offset;
    }
  }

  /** Field by field, most significant first. */
  predicate Before(a: Instant, b: Instant) {
    if a.year != b.year then a.year < b.year
    else if a.month != b.month then a.month < b.month
    else if a.day != b.day then a.day < b.day
    else ClockBefore(a, b)
  }

  predicate ClockBefore(a: Instant, b: Instant) {
    if a.hour != b.hour then a.hour < b.hour
    else if a.minute != b.minute then a.minute < b.minute
    else if a.second != b.second then a.second < b.second
    else a.micro < b.micro
  }

  function ClockText(t: Instant): string {
    Pad(t.hour, 2) + (":" + (Pad(t.minute, 2) + (":" + (Pad(t.second, 2) + Fraction(t.micro)))))
  }

  lemma ClockTextOrder(a: Instant, b: Instant)
    requires Valid(a) && Valid(b)
    ensures StrLess(ClockText(a), ClockText(b)) <==> ClockBefore(a, b)
  {
    assert Pow10(2) == 100;
    FractionOrder(a.micro, b.micro);
    PadOrder(a.second, b.second, 2, Fraction(a.micro), Fraction(b.micro));
    var sa, sb := Pad(a.second, 2) + Fraction(a.micro), Pad(b.second, 2) + Fraction(b.micro);
    FieldOrder(a.minute, b.minute, 2, ':', sa, sb);
    FieldOrder(a.hour, b.hour, 2, ':', Pad(a.minute, 2) + (":" + sa), Pad(b.minute, 2) + (":" + sb));
  }

  lemma IsoOrderIsFieldOrder(a: Instant, b: Instant)
    requires Valid(a) && Valid(b)
    ensures StrLess(IsoFormat(a), IsoFormat(b)) <==> Before(a, b)
  {
    assert Pow10(2) == 100 && Pow10(4) == 10_000 by { assert Pow10(3) == 1000; }
    ClockTextOrder(a, b);
    FieldOrder(a.day, b.day, 2, 'T', ClockText(a), ClockText(b));
    var da, db := Pad(a.day, 2) + ("T" + ClockText(a)), Pad(b.day, 2) + ("T" + ClockText(b));
    FieldOrder(a.month, b.month, 2, '-', da, db);
    FieldOrder(a.year, b.year, 4, '-', Pad(a.month, 2) + ("-" + da), Pad(b.month, 2) + ("-" + db));
  }

  // ---------------------------------------------------------------- chronological order

  lemma {:induction false} MonthsAccumulate(year: nat, m: nat, m': nat)
    requires 1 <= m < m'
    ensures DaysBeforeMonth(year, m) + DaysInMonth(year, m) <= DaysBeforeMonth(year, m')
  {
    if m + 1 < m' {
      MonthsAccumulate(year, m, m' - 1);
    }
  }

  lemma YearLength(year: nat)
    ensures DaysBeforeMonth(year, 12) + 31 == if Leap(year) then 366 else 365
  {
    var leap := if Leap(year) then 1 else 0;
    assert DaysBeforeMonth(year, 2) == 31;
    assert DaysBeforeMonth(year, 3) == 59 + leap;
    assert DaysBeforeMonth(year, 5) == 120 + leap;
    assert DaysBeforeMonth(year, 7) == 181 + leap;
    assert DaysBeforeMonth(year, 9) == 243 + leap;
    assert DaysBeforeMonth(year, 11) == 304 + leap;
  }

  lemma DivisionSteps(y: nat)
    ensures (y + 1) / 4 == y / 4 + if (y + 1) % 4 == 0 then 1 else 0
    ensures (y + 1) / 100 == y / 100 + if (y + 1) % 100 == 0 then 1 else 0
    ensures (y + 1) / 400 == y / 400 + if (y + 1) % 400 == 0 then 1 else 0
  {
  }

  lemma MultipleOf(year: nat, q: nat, d: nat)
    requires d in {4, 100} && year == d * q
    ensures year % d == 0
  {
  }

  lemma LeapMultiples(year: nat)
    ensures year % 400 == 0 ==> year % 100 == 0
    ensures year % 100 == 0 ==> year % 4 == 0
  {
    if year % 400 == 0 { MultipleOf(year, 4 * (year / 400), 100); }
    if year % 100 == 0 { MultipleOf(year, 25 * (year / 100), 4); }
  }

  lemma YearStep(year: nat)
    requires 1 <= year
    ensures DaysBeforeYear(year + 1) == DaysBeforeYear(year) + if Leap(year) then 366 else 365
  {
    DivisionSteps(year - 1);
    LeapMultiples(year);
  }

  lemma {:induction false} YearsAccumulate(y: nat, y': nat)
    requires 1 <= y < y'
    ensures DaysBeforeYear(y) + (if Leap(y) then 366 else 365) <= DaysBeforeYear(y')
  {
    YearStep(y' - 1);
    if y + 1 < y' {
      YearsAccumulate(y, y' - 1);
    }
  }

  lemma DayStaysInYear(t: Instant)
    requires Valid(t)
    ensures DaysBeforeMonth(t.year, t.month) + t.day <= if Leap(t.year) then 366 else 365
  {
    YearLength(t.year);
    if t.month < 12 {
      MonthsAccumulate(t.year, t.month, 12);
    }
  }

  lemma FieldOrderIsChronological(a: Instant, b: Instant)
    requires Valid(a) && Valid(b) && Before(a, b)
    ensures Elapsed(a) < Elapsed(b)
  {
    if a.year < b.year {
      DayStaysInYear(a);
      YearsAccumulate(a.year, b.year);
    } else if a.month < b.month {
      MonthsAccumulate(a.year, a.month, b.month);
    }
  }

  /** String order is chronological order. */
  lemma IsoOrderIsChronological(a: Instant, b: Instant)
    requires Valid(a) && Valid(b)
    ensures StrLess(IsoFormat(a), IsoFormat(b)) <==> Elapsed(a) < Elapsed(b)
    ensures IsoFormat(a) == IsoFormat(b) <==> Elapsed(a) == Elapsed(b)
    ensures Elapsed(a) == Elapsed(b) <==> a == b
  {
    IsoOrderIsFieldOrder(a, b);
    IsoOrderIsFieldOrder(b, a);
    NotLessThanItself(IsoFormat(a));
    if Before(a, b) {
      FieldOrderIsChronological(a, b);
    } else if Before(b, a) {
      FieldOrderIsChronological(b, a);
    } else {
      assert a == b;
    }
  }

  /** The string maximum that extends a hold keeps the later deadline. */
  lemma StrMaxKeepsLater(a: Instant, b: Instant)
    requires Valid(a) && Valid(b)
    ensures StrMax(IsoFormat(a), IsoFormat(b)) == IsoFormat(if Elapsed(a) < Elapsed(b) then b else a)
  {
    IsoOrderIsChronological(a, b);
  }

  /** A day and a second are as long as the calendar has them. */
  lemma DayAndSecond(t: Instant)
    requires Valid(t)
    ensures Valid(t.(day := t.day + 1)) ==> Elapsed(t.(day := t.day + 1)) == Elapsed(t) + DAY
    ensures Valid(t.(second := t.second + 1)) ==> Elapsed(t.(second := t.second + 1)) == Elapsed(t) + SECOND
  {
  }
}
