/** UTC instants, their civil fields and the text chrono's `to_rfc3339` gives them.

    The server compares such texts as text (SQLite's BINARY collation), so the point of this
    module is `TextOrderIsTimeOrder`: the comparison of texts agrees with that of instants. */
module Rfc3339 {

  const NANOS := 1_000_000_000
  const DAY_NANOS := 86_400 * NANOS
  const MAX_DAY := 3_652_425

  /** Nanoseconds since 0000-01-01T00:00:00Z, up to the end of the year 9999. */
  type Instant = t: int | 0 <= t < MAX_DAY * DAY_NANOS

  // ---------------------------------------------------------------- calendar

  predicate IsLeap(y: nat) {
    y % 4 == 0 && (y % 100 != 0 || y % 400 == 0)
  }

  function DaysInMonth(y: nat, m: nat): (d: nat)
    requires 1 <= m <= 12
  {
    if m == 2 then (if IsLeap(y) then 29 else 28)
    else if m == 4 || m == 6 || m == 9 || m == 11 then 30
    else 31
  }

  /** Days of the years 0 .. y-1, in closed form. */
  function DaysBeforeYear(y: nat): (d: nat) {
    365 * y + (y + 3) / 4 - (y + 99) / 100 + (y + 399) / 400
  }

  /** Days of the months 1 .. m-1 of year y. */
  function DaysBeforeMonth(y: nat, m: nat): (d: nat)
    requires 1 <= m <= 13
  {
    if m == 1 then 0 else DaysBeforeMonth(y, m - 1) + DaysInMonth(y, m - 1)
  }

  lemma MonthTable(y: nat)
    ensures var l := if IsLeap(y) then 1 else 0;
            && DaysBeforeMonth(y, 1) == 0 && DaysBeforeMonth(y, 2) == 31
            && DaysBeforeMonth(y, 3) == 59 + l && DaysBeforeMonth(y, 4) == 90 + l
            && DaysBeforeMonth(y, 5) == 120 + l && DaysBeforeMonth(y, 6) == 151 + l
            && DaysBeforeMonth(y, 7) == 181 + l && DaysBeforeMonth(y, 8) == 212 + l
            && DaysBeforeMonth(y, 9) == 243 + l && DaysBeforeMonth(y, 10) == 273 + l
            && DaysBeforeMonth(y, 11) == 304 + l && DaysBeforeMonth(y, 12) == 334 + l
            && DaysBeforeMonth(y, 13) == 365 + l
  {
    assert DaysBeforeMonth(y, 1) == 0;
    assert DaysBeforeMonth(y, 3) == 31 + DaysInMonth(y, 2);
    assert DaysBeforeMonth(y, 5) == DaysBeforeMonth(y, 3) + 61;
    assert DaysBeforeMonth(y, 7) == DaysBeforeMonth(y, 5) + 61;
    assert DaysBeforeMonth(y, 9) == DaysBeforeMonth(y, 7) + 62;
    assert DaysBeforeMonth(y, 11) == DaysBeforeMonth(y, 9) + 61;
    assert DaysBeforeMonth(y, 13) == DaysBeforeMonth(y, 11) + 61;
  }

  lemma CeilingStep(y: nat, k: nat)
    requires k >= 1
    ensures (y + k) / k == (y + k - 1) / k + if y % k == 0 then 1 else 0
  {
    var q, r := y / k, y % k;
    assert y + k == (q + 1) * k + r;
    DivModUnique(y + k, k, q + 1, r);
    if r == 0 {
      DivModUnique(y + k - 1, k, q, k - 1);
    } else {
      DivModUnique(y + k - 1, k, q + 1, r - 1);
    }
  }

  lemma MultipleOfMultiple(y: nat, k: nat, j: nat)
    requires k >= 1 && j >= 1 && y % (k * j) == 0
    ensures y % k == 0
  {
    var q := y / (k * j);
    assert y == (q * j) * k + 0;
    DivModUnique(y, k, q * j, 0);
  }

  lemma LeapStep(y: nat)
    ensures DaysBeforeYear(y + 1) == DaysBeforeYear(y) + if IsLeap(y) then 366 else 365
  {
    CeilingStep(y, 4);
    CeilingStep(y, 100);
    CeilingStep(y, 400);
    if y % 400 == 0 {
      MultipleOfMultiple(y, 100, 4);
    }
    if y % 100 == 0 {
      MultipleOfMultiple(y, 4, 25);
    }
  }

  /** The closed form agrees with the calendar: a year is as long as its twelve months. */
  lemma YearLength(y: nat)
    ensures DaysBeforeYear(y + 1) == DaysBeforeYear(y) + DaysBeforeMonth(y, 13)
  {
    LeapStep(y);
    MonthTable(y);
  }

  lemma {:induction false} YearsMonotone(y: nat, z: nat)
    requires y <= z
    ensures DaysBeforeYear(y) <= DaysBeforeYear(z)
    decreases z - y
  {
    if y < z {
      YearLength(y);
      YearsMonotone(y + 1, z);
    }
  }

  lemma {:induction false} MonthsMonotone(y: nat, m: nat, k: nat)
    requires 1 <= m <= k <= 13
    ensures DaysBeforeMonth(y, m) <= DaysBeforeMonth(y, k)
  {
    if m < k {
      MonthsMonotone(y, m, k - 1);
    }
  }

  /** The year that holds a given day. */
  function YearOf(day: nat, from: nat): (y: nat)
    requires DaysBeforeYear(from) <= day
    ensures DaysBeforeYear(y) <= day < DaysBeforeYear(y + 1)
    decreases day - DaysBeforeYear(from)
  {
    YearLength(from);
    MonthTable(from);
    if day < DaysBeforeYear(from + 1) then from else YearOf(day, from + 1)
  }

  /** The month that holds a given day of a year. */
  function MonthOf(y: nat, day: nat, from: nat): (m: nat)
    requires 1 <= from <= 12
    requires DaysBeforeMonth(y, from) <= day < DaysBeforeMonth(y, 13)
    ensures 1 <= m <= 12 && DaysBeforeMonth(y, m) <= day < DaysBeforeMonth(y, m + 1)
    decreases 12 - from
  {
    if day < DaysBeforeMonth(y, from + 1) then from else MonthOf(y, day, from + 1)
  }

  datatype Civil = Civil(year: nat, month: nat, day: nat, hour: nat, minute: nat, second: nat, nano: nat)

  predicate ValidCivil(c: Civil) {
    && c.year <= 9999 && 1 <= c.month <= 12 && 1 <= c.day <= DaysInMonth(c.year, c.month)
    && c.hour < 24 && c.minute < 60 && c.second < 60 && c.nano < NANOS
  }

  /** Days from 0000-01-01 to a date. */
  function DayNumber(c: Civil): int
    requires ValidCivil(c)
  {
    DaysBeforeYear(c.year) + DaysBeforeMonth(c.year, c.month) + c.day - 1
  }

  function FromCivil(c: Civil): int
    requires ValidCivil(c)
  {
    (((DayNumber(c) * 24 + c.hour) * 60 + c.minute) * 60 + c.second) * NANOS + c.nano
  }

  /** The date of a day, at midnight. */
  function DateOf(day: nat): (c: Civil)
    requires day < MAX_DAY
    ensures ValidCivil(c) && DayNumber(c) == day && c == Civil(c.year, c.month, c.day, 0, 0, 0, 0)
  {
    var y := YearOf(day, 0);
    YearBound(day, y);
    YearLength(y);
    var m := MonthOf(y, day - DaysBeforeYear(y), 1);
    Civil(y, m, day - DaysBeforeYear(y) - DaysBeforeMonth(y, m) + 1, 0, 0, 0, 0)
  }

  function ToCivil(t: Instant): (c: Civil)
    ensures ValidCivil(c)
  {
    var date := DateOf(t / DAY_NANOS);
    var secs := t / NANOS;
    date.(hour := secs / 3600 % 24, minute := secs / 60 % 60, second := secs % 60, nano := t % NANOS)
  }

  lemma YearBound(day: nat, y: nat)
    requires day < MAX_DAY && DaysBeforeYear(y) <= day
    ensures y <= 9999
  {
    if y > 9999 {
      YearsMonotone(10000, y);
    }
  }

  /** Reading an instant's civil fields back gives the instant. */
  lemma CivilRoundTrip(t: Instant)
    ensures FromCivil(ToCivil(t)) == t
  {
    var secs := t / NANOS;
    assert t == secs * NANOS + t % NANOS;
    var mins := secs / 60;
    assert secs == mins * 60 + secs % 60;
    var hours := mins / 60;
    assert mins == hours * 60 + mins % 60;
    var days := hours / 24;
    assert hours == days * 24 + hours % 24;
    assert secs / 3600 == hours;
    assert t / DAY_NANOS == days;
  }

  /** Comparison of civil fields, most significant first. */
  predicate CivilLess(a: Civil, b: Civil) {
    || a.year < b.year
    || (a.year == b.year && (
        || a.month < b.month
        || (a.month == b.month && (
            || a.day < b.day
            || (a.day == b.day && (
                || a.hour < b.hour
                || (a.hour == b.hour && (
                    || a.minute < b.minute
                    || (a.minute == b.minute && (
                        || a.second < b.second
                        || (a.second == b.second && a.nano < b.nano)))))))))))
  }

  lemma DayOrder(a: Civil, b: Civil)
    requires ValidCivil(a) && ValidCivil(b)
    requires a.year < b.year || (a.year == b.year && (a.month < b.month || (a.month == b.month && a.day < b.day)))
    ensures DayNumber(a) < DayNumber(b)
  {
    if a.year < b.year {
      DayInYear(a);
      DayInYear(b);
      YearsMonotone(a.year + 1, b.year);
      YearLength(a.year);
    } else if a.month < b.month {
      MonthsMonotone(a.year, a.month + 1, b.month);
    }
  }

  lemma CivilLessIsEarlier(a: Civil, b: Civil)
    requires ValidCivil(a) && ValidCivil(b) && CivilLess(a, b)
    ensures FromCivil(a) < FromCivil(b)
  {
    if a.year == b.year && a.month == b.month && a.day == b.day {
      assert DayNumber(a) == DayNumber(b);
    } else {
      DayOrder(a, b);
    }
  }

  lemma DayInYear(c: Civil)
    requires ValidCivil(c)
    ensures 0 <= DaysBeforeMonth(c.year, c.month) + c.day - 1 < DaysBeforeMonth(c.year, 13)
  {
    MonthsMonotone(c.year, c.month + 1, 13);
  }

  lemma CivilOrder(a: Instant, b: Instant)
    ensures a < b <==> CivilLess(ToCivil(a), ToCivil(b))
  {
    var p, q := ToCivil(a), ToCivil(b);
    CivilRoundTrip(a);
    CivilRoundTrip(b);
    if CivilLess(p, q) {
      CivilLessIsEarlier(p, q);
    } else if CivilLess(q, p) {
      CivilLessIsEarlier(q, p);
    } else {
      assert p == q;
    }
  }

  // -------------------------------------------------------------- text order

  /** SQLite's BINARY comparison: the first differing character decides, a proper prefix is smaller. */
  predicate TextLess(a: string, b: string) {
    b != [] && (a == [] || a[0] < b[0] || (a[0] == b[0] && TextLess(a[1..], b[1..])))
  }

  lemma {:induction false} LessAfterPrefix(a: string, b: string, x: string, y: string)
    requires |a| == |b|
    ensures TextLess(a + x, b + y) <==> TextLess(a, b) || (a == b && TextLess(x, y))
  {
    if a == [] {
      assert a + x == x && b + y == y;
    } else {
      assert (a + x)[1..] == a[1..] + x && (b + y)[1..] == b[1..] + y;
      LessAfterPrefix(a[1..], b[1..], x, y);
      assert a == [a[0]] + a[1..] && b == [b[0]] + b[1..];
    }
  }

  function Pow10(w: nat): (p: nat)
    ensures p >= 1
  {
    if w == 0 then 1 else 10 * Pow10(w - 1)
  }

  function Digit(d: nat): (c: char)
    requires d < 10
    ensures '0' <= c <= '9'
  {
    "0123456789"[d]
  }

  /** Decimal digits of `n`, padded with zeros to width `w`. */
  function Pad(n: nat, w: nat): (s: string)
    requires n < Pow10(w)
    ensures |s| == w && forall i :: 0 <= i < w ==> '0' <= s[i] <= '9'
  {
    if w == 0 then "" else Pad(n / 10, w - 1) + [Digit(n % 10)]
  }

  lemma DigitOrder(d: nat, e: nat)
    requires d < 10 && e < 10
    ensures TextLess([Digit(d)], [Digit(e)]) <==> d < e
    ensures Digit(d) == Digit(e) <==> d == e
  {
    assert TextLess([Digit(d)], [Digit(e)]) <==> Digit(d) < Digit(e);
  }

  lemma SameLast(p: string, c: char, q: string, d: char)
    requires |p| == |q|
    ensures p + [c] == q + [d] <==> p == q && c == d
  {
    assert (p + [c])[..|p|] == p && (q + [d])[..|q|] == q;
    assert (p + [c])[|p|] == c && (q + [d])[|q|] == d;
  }

  lemma {:induction false} PadOrder(n: nat, m: nat, w: nat)
    requires n < Pow10(w) && m < Pow10(w)
    ensures TextLess(Pad(n, w), Pad(m, w)) <==> n < m
    ensures Pad(n, w) == Pad(m, w) <==> n == m
  {
    if w > 0 {
      PadOrder(n / 10, m / 10, w - 1);
      var p, q := Pad(n / 10, w - 1), Pad(m / 10, w - 1);
      var d, e := Digit(n % 10), Digit(m % 10);
      LessAfterPrefix(p, q, [d], [e]);
      DigitOrder(n % 10, m % 10);
      SameLast(p, d, q, e);
    }
  }

  /** A fixed-width number followed by more text. */
  lemma FieldOrder(n: nat, m: nat, w: nat, x: string, y: string)
    requires n < Pow10(w) && m < Pow10(w)
    ensures TextLess(Pad(n, w) + x, Pad(m, w) + y) <==> n < m || (n == m && TextLess(x, y))
  {
    PadOrder(n, m, w);
    LessAfterPrefix(Pad(n, w), Pad(m, w), x, y);
  }

  lemma SeparatorOrder(c: char, x: string, y: string)
    ensures TextLess([c] + x, [c] + y) <==> TextLess(x, y)
  {
    LessAfterPrefix([c], [c], x, y);
  }

  lemma PadStep(n: nat, k: nat, d: nat, w: nat)
    requires w > 0 && n == 10 * k + d && d < 10 && k < Pow10(w - 1)
    ensures n < Pow10(w) && Pad(n, w) == Pad(k, w - 1) + [Digit(d)]
  {
    assert n / 10 == k && n % 10 == d;
  }

  lemma Associate(a: string, b: string, c: string)
    ensures (a + b) + c == a + (b + c)
  {
  }

  /** `q` followed by `v` zero digits. */
  function Shift10(q: nat, v: nat): nat {
    if v == 0 then q else 10 * Shift10(q, v - 1)
  }

  lemma Shift10Values(q: nat)
    ensures Shift10(q, 3) == 1_000 * q && Shift10(q, 6) == 1_000_000 * q
  {
    assert Shift10(q, 1) == 10 * Shift10(q, 0);
    assert Shift10(q, 2) == 10 * Shift10(q, 1);
    assert Shift10(q, 3) == 10 * Shift10(q, 2);
    assert Shift10(q, 4) == 10 * Shift10(q, 3);
    assert Shift10(q, 5) == 10 * Shift10(q, 4);
    assert Shift10(q, 6) == 10 * Shift10(q, 5);
  }

  /** A wide number's digits are those of its high part, then those of its low part. */
  lemma {:induction false} PadSplit(q: nat, r: nat, w: nat, v: nat)
    requires q < Pow10(w) && r < Pow10(v)
    ensures Shift10(q, v) + r < Pow10(w + v)
    ensures Pad(Shift10(q, v) + r, w + v) == Pad(q, w) + Pad(r, v)
  {
    if v == 0 {
      assert Pad(r, v) == "";
    } else {
      PadSplit(q, r / 10, w, v - 1);
      PadStep(Shift10(q, v) + r, Shift10(q, v - 1) + r / 10, r % 10, w + v);
      PadStep(r, r / 10, r % 10, v);
      Associate(Pad(q, w), Pad(r / 10, v - 1), [Digit(r % 10)]);
    }
  }

  lemma MulMonotone(a: nat, b: nat, d: nat)
    requires a <= b
    ensures a * d <= b * d
  {
    assert (b - a) * d >= 0;
  }

  lemma DivModUnique(n: nat, d: nat, q: nat, r: nat)
    requires d >= 1 && n == q * d + r && r < d
    ensures n / d == q && n % d == r
  {
    var k := n / d;
    assert n == k * d + n % d;
    if k < q {
      MulMonotone(k + 1, q, d);
    } else if k > q {
      MulMonotone(q + 1, k, d);
    }
  }

  // ------------------------------------------------------------------ format

  /** chrono's automatic choice of 0, 3, 6 or 9 fraction digits. */
  function FractionWidth(n: nat): (w: nat)
    ensures w == 0 || w == 3 || w == 6 || w == 9
  {
    if n == 0 then 0
    else if n % 1_000_000 == 0 then 3
    else if n % 1_000 == 0 then 6
    else 9
  }

  lemma Pow10Values()
    ensures Pow10(0) == 1 && Pow10(2) == 100 && Pow10(3) == 1_000 && Pow10(4) == 10_000
    ensures Pow10(6) == 1_000_000 && Pow10(9) == 1_000_000_000
  {
    assert Pow10(2) == 10 * Pow10(1);
    assert Pow10(4) == 100 * Pow10(2);
    assert Pow10(6) == 100 * Pow10(4);
    assert Pow10(8) == 100 * Pow10(6);
  }

  /** The fraction digits read as a number. */
  function FractionValue(n: nat): (v: nat)
    requires n < NANOS
    ensures v < Pow10(FractionWidth(n))
  {
    Pow10Values();
    var w := FractionWidth(n);
    if w == 0 then 0 else if w == 3 then n / 1_000_000 else if w == 6 then n / 1_000 else n
  }

  const ZONE := "+00:00"

  /** Fraction, if any, and zone. */
  function Tail(n: nat): string
    requires n < NANOS
  {
    if n == 0 then ZONE else "." + (Pad(FractionValue(n), FractionWidth(n)) + ZONE)
  }

  function ClockText(c: Civil): string
    requires ValidCivil(c)
  {
    Pow10Values();
    Pad(c.hour, 2) + (":" + (Pad(c.minute, 2) + (":" + (Pad(c.second, 2) + Tail(c.nano)))))
  }

  function CivilText(c: Civil): string
    requires ValidCivil(c)
  {
    Pow10Values();
    Pad(c.year, 4) + ("-" + (Pad(c.month, 2) + ("-" + (Pad(c.day, 2) + ("T" + ClockText(c))))))
  }

  /** `DateTime<Utc>::to_rfc3339`. */
  function ToText(t: Instant): string {
    CivilText(ToCivil(t))
  }

  /** Two fractions of the same width compare as numbers. */
  lemma SameWidthOrder(n: nat, m: nat)
    requires n < NANOS && m < NANOS && FractionWidth(n) == FractionWidth(m) > 0
    ensures TextLess(Tail(n), Tail(m)) <==> n < m
  {
    Pow10Values();
    var w := FractionWidth(n);
    var a, b := FractionValue(n), FractionValue(m);
    SeparatorOrder('.', Pad(a, w) + ZONE, Pad(b, w) + ZONE);
    FieldOrder(a, b, w, ZONE, ZONE);
    Irreflexive(ZONE);
  }

  lemma {:induction false} Irreflexive(a: string)
    ensures !TextLess(a, a)
  {
    if a != [] {
      Irreflexive(a[1..]);
    }
  }

  /** After common digits '+' meets a digit. */
  lemma ZoneAgainstDigit(a: nat, q: nat, w: nat, rest: string)
    requires a < Pow10(w) && q < Pow10(w) && rest != "" && '0' <= rest[0]
    ensures TextLess("." + (Pad(a, w) + ZONE), "." + (Pad(q, w) + rest)) <==> a <= q
    ensures TextLess("." + (Pad(q, w) + rest), "." + (Pad(a, w) + ZONE)) <==> q < a
  {
    SeparatorOrder('.', Pad(a, w) + ZONE, Pad(q, w) + rest);
    SeparatorOrder('.', Pad(q, w) + rest, Pad(a, w) + ZONE);
    FieldOrder(a, q, w, ZONE, rest);
    FieldOrder(q, a, w, rest, ZONE);
    assert ZONE[0] == '+' < '0' <= rest[0];
  }

  /** A shorter digit string against a longer one with high part `q` and low part `r`. */
  lemma NarrowDigits(a: nat, w: nat, q: nat, r: nat, v: nat)
    requires a < Pow10(w) && q < Pow10(w) && r < Pow10(v) && v > 0
    ensures Shift10(q, v) + r < Pow10(w + v)
    ensures var narrow, wide := "." + (Pad(a, w) + ZONE), "." + (Pad(Shift10(q, v) + r, w + v) + ZONE);
            (TextLess(narrow, wide) <==> a <= q) && (TextLess(wide, narrow) <==> q < a)
  {
    PadSplit(q, r, w, v);
    var low := Pad(r, v);
    Associate(Pad(q, w), low, ZONE);
    assert (low + ZONE)[0] == low[0];
    ZoneAgainstDigit(a, q, w, low + ZONE);
  }

  lemma TailIs(n: nat, v: nat, w: nat)
    requires 0 < n < NANOS && FractionWidth(n) == w && FractionValue(n) == v
    ensures v < Pow10(w) && Tail(n) == "." + (Pad(v, w) + ZONE)
  {
  }

  lemma ThreeAgainstSix(n: nat, m: nat, a: nat, q: nat, r: nat)
    requires n < NANOS && m < NANOS && FractionWidth(n) == 3 && FractionWidth(m) == 6
    requires n == 1_000_000 * a && m == 1_000 * (1_000 * q + r) && 0 < r < 1_000
    ensures (TextLess(Tail(n), Tail(m)) <==> n < m) && (TextLess(Tail(m), Tail(n)) <==> m < n)
  {
    Pow10Values();
    Shift10Values(q);
    TailIs(n, a, 3);
    TailIs(m, 1_000 * q + r, 6);
    NarrowDigits(a, 3, q, r, 3);
  }

  lemma ThreeAgainstNine(n: nat, m: nat, a: nat, q: nat, r: nat)
    requires n < NANOS && m < NANOS && FractionWidth(n) == 3 && FractionWidth(m) == 9
    requires n == 1_000_000 * a && m == 1_000_000 * q + r && 0 < r < 1_000_000
    ensures (TextLess(Tail(n), Tail(m)) <==> n < m) && (TextLess(Tail(m), Tail(n)) <==> m < n)
  {
    Pow10Values();
    Shift10Values(q);
    TailIs(n, a, 3);
    TailIs(m, m, 9);
    NarrowDigits(a, 3, q, r, 6);
  }

  lemma SixAgainstNine(n: nat, m: nat, a: nat, q: nat, r: nat)
    requires n < NANOS && m < NANOS && FractionWidth(n) == 6 && FractionWidth(m) == 9
    requires n == 1_000 * a && m == 1_000 * q + r && 0 < r < 1_000
    ensures (TextLess(Tail(n), Tail(m)) <==> n < m) && (TextLess(Tail(m), Tail(n)) <==> m < n)
  {
    Pow10Values();
    Shift10Values(q);
    TailIs(n, a, 6);
    TailIs(m, m, 9);
    NarrowDigits(a, 6, q, r, 3);
  }

  lemma NarrowAgainstWide(n: nat, m: nat)
    requires n < NANOS && m < NANOS && 0 < FractionWidth(n) < FractionWidth(m)
    ensures TextLess(Tail(n), Tail(m)) <==> n < m
    ensures TextLess(Tail(m), Tail(n)) <==> m < n
  {
    if FractionWidth(n) == 6 {
      SixAgainstNine(n, m, n / 1_000, m / 1_000, m % 1_000);
    } else if FractionWidth(m) == 6 {
      ThreeAgainstSix(n, m, n / 1_000_000, m / 1_000_000, m / 1_000 % 1_000);
    } else {
      ThreeAgainstNine(n, m, n / 1_000_000, m / 1_000_000, m % 1_000_000);
    }
  }

  lemma FractionOrder(n: nat, m: nat)
    requires n < NANOS && m < NANOS
    ensures TextLess(Tail(n), Tail(m)) <==> n < m
  {
    if n == m {
      Irreflexive(Tail(n));
    } else if n == 0 {
      assert Tail(n) == ZONE && Tail(m)[0] == '.';
    } else if m == 0 {
      assert Tail(m) == ZONE && Tail(n)[0] == '.';
    } else if FractionWidth(n) == FractionWidth(m) {
      SameWidthOrder(n, m);
    } else if FractionWidth(n) < FractionWidth(m) {
      NarrowAgainstWide(n, m);
    } else {
      NarrowAgainstWide(m, n);
    }
  }

  lemma ClockTextOrder(a: Civil, b: Civil)
    requires ValidCivil(a) && ValidCivil(b)
    ensures TextLess(ClockText(a), ClockText(b)) <==>
            a.hour < b.hour || (a.hour == b.hour && (
              a.minute < b.minute || (a.minute == b.minute && (
                a.second < b.second || (a.second == b.second && a.nano < b.nano)))))
  {
    Pow10Values();
    var fa, fb := Tail(a.nano), Tail(b.nano);
    FractionOrder(a.nano, b.nano);
    var sa, sb := Pad(a.second, 2) + fa, Pad(b.second, 2) + fb;
    FieldOrder(a.second, b.second, 2, fa, fb);
    SeparatorOrder(':', sa, sb);
    var ma, mb := Pad(a.minute, 2) + (":" + sa), Pad(b.minute, 2) + (":" + sb);
    FieldOrder(a.minute, b.minute, 2, ":" + sa, ":" + sb);
    SeparatorOrder(':', ma, mb);
    FieldOrder(a.hour, b.hour, 2, ":" + ma, ":" + mb);
  }

  lemma CivilTextOrder(a: Civil, b: Civil)
    requires ValidCivil(a) && ValidCivil(b)
    ensures TextLess(CivilText(a), CivilText(b)) <==> CivilLess(a, b)
  {
    Pow10Values();
    var ca, cb := ClockText(a), ClockText(b);
    ClockTextOrder(a, b);
    SeparatorOrder('T', ca, cb);
    var da, db := Pad(a.day, 2) + ("T" + ca), Pad(b.day, 2) + ("T" + cb);
    FieldOrder(a.day, b.day, 2, "T" + ca, "T" + cb);
    SeparatorOrder('-', da, db);
    var ma, mb := Pad(a.month, 2) + ("-" + da), Pad(b.month, 2) + ("-" + db);
    FieldOrder(a.month, b.month, 2, "-" + da, "-" + db);
    SeparatorOrder('-', ma, mb);
    FieldOrder(a.year, b.year, 4, "-" + ma, "-" + mb);
  }

  /** The server's textual `expires_at > now` compares instants, whatever the fraction widths. */
  lemma TextOrderIsTimeOrder(a: Instant, b: Instant)
    ensures TextLess(ToText(a), ToText(b)) <==> a < b
    ensures ToText(a) == ToText(b) <==> a == b
  {
    CivilTextOrder(ToCivil(a), ToCivil(b));
    CivilTextOrder(ToCivil(b), ToCivil(a));
    CivilOrder(a, b);
    CivilOrder(b, a);
    Irreflexive(ToText(a));
  }

  // ------------------------------------------------------------------- shape

  /** The part of the text's shape that shows its length from its end. */
  predicate IsStamp(s: string) {
    || (|s| == 25 && s[16] == ':')
    || (|s| == 29 && s[20] != ':' && s[19] == '.')
    || (|s| == 32 && s[23] != ':' && s[22] != '.' && s[19] == '.')
    || (|s| == 35 && s[26] != ':' && s[25] != '.' && s[22] != '.')
  }

  lemma Shift(a: string, b: string)
    ensures forall j :: 0 <= j < |b| ==> b[j] == (a + b)[|a| + j]
  {
  }

  lemma TailShape(n: nat)
    requires n < NANOS
    ensures var w := FractionWidth(n);
            && |Tail(n)| == (if w == 0 then 6 else w + 7)
            && (w > 0 ==> Tail(n)[0] == '.' && forall j :: 1 <= j <= w ==> '0' <= Tail(n)[j] <= '9')
  {
    if n > 0 {
      var digits := Pad(FractionValue(n), FractionWidth(n));
      assert forall j :: 1 <= j <= |digits| ==> Tail(n)[j] == digits[j - 1];
    }
  }

  lemma ClockShape(c: Civil)
    requires ValidCivil(c)
    ensures var s := ClockText(c);
            && |s| == 8 + |Tail(c.nano)| && s[5] == ':'
            && forall j :: 0 <= j < |Tail(c.nano)| ==> Tail(c.nano)[j] == s[8 + j]
  {
    Pow10Values();
    var tail := Tail(c.nano);
    var seconds := Pad(c.second, 2) + tail;
    var minutes := Pad(c.minute, 2) + (":" + seconds);
    assert minutes[2] == ':' && forall j :: 0 <= j < |seconds| ==> seconds[j] == minutes[3 + j];
    assert ClockText(c) == Pad(c.hour, 2) + (":" + minutes);
    assert forall j :: 0 <= j < |minutes| ==> minutes[j] == ClockText(c)[3 + j];
    assert forall j :: 0 <= j < |tail| ==> tail[j] == seconds[2 + j];
  }

  lemma CivilShape(c: Civil)
    requires ValidCivil(c)
    ensures var s, clock := CivilText(c), ClockText(c);
            |s| == 11 + |clock| && forall j :: 0 <= j < |clock| ==> clock[j] == s[11 + j]
  {
    Pow10Values();
    var days := Pad(c.day, 2) + ("T" + ClockText(c));
    var months := Pad(c.month, 2) + ("-" + days);
    Shift(Pad(c.year, 4) + "-", months);
    Associate(Pad(c.year, 4), "-", months);
    Shift(Pad(c.month, 2) + "-", days);
    Associate(Pad(c.month, 2), "-", days);
    Shift(Pad(c.day, 2) + "T", ClockText(c));
    Associate(Pad(c.day, 2), "T", ClockText(c));
  }

  lemma ToTextIsStamp(t: Instant)
    ensures IsStamp(ToText(t))
  {
    var c := ToCivil(t);
    CivilShape(c);
    ClockShape(c);
    TailShape(c.nano);
    var s, tail := ToText(t), Tail(c.nano);
    assert s[16] == ClockText(c)[5];
    assert forall j :: 0 <= j < |tail| ==> tail[j] == s[19 + j];
  }
}
