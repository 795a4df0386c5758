/** Reading the time texts back: what fixes their separators, their digits and their zone. */
module Rfc3339Reader {
  import opened Wrappers
  import opened Rfc3339

  /** The next `w` characters as a decimal number, and what follows. */
  function Take(s: string, w: nat): Option<(nat, string)> {
    if w == 0 then Some((0, s))
    else
      match Take(s, w - 1)
      case None => None
      case Some((n, rest)) =>
        if rest != "" && '0' <= rest[0] <= '9' then Some((10 * n + (rest[0] as int - '0' as int), rest[1..])) else None
  }

  /** A number and the separator after it. */
  function Field(s: string, w: nat, separator: char): Option<(nat, string)> {
    match Take(s, w)
    case None => None
    case Some((n, rest)) => if rest != "" && rest[0] == separator then Some((n, rest[1..])) else None
  }

  function Digits(s: string): nat {
    if s != "" && '0' <= s[0] <= '9' then 1 + Digits(s[1..]) else 0
  }

  /** Nanoseconds of a fraction of 3, 6 or 9 digits, zero without one. */
  function Fraction(s: string): Option<(nat, string)> {
    if s == "" || s[0] != '.' then Some((0, s))
    else
      var w := Digits(s[1..]);
      if w != 3 && w != 6 && w != 9 then None
      else
        match Take(s[1..], w)
        case None => None
        case Some((n, rest)) => Some((if w == 3 then n * 1_000_000 else if w == 6 then n * 1_000 else n, rest))
  }

  /** hh:mm:ss[.fraction]+00:00, as hour, minute, second and nanosecond. */
  function ReadClock(s: string): Option<(nat, nat, nat, nat)> {
    match Field(s, 2, ':')
    case None => None
    case Some((hour, s1)) =>
      match Field(s1, 2, ':')
      case None => None
      case Some((minute, s2)) =>
        match Take(s2, 2)
        case None => None
        case Some((second, s3)) =>
          match Fraction(s3)
          case None => None
          case Some((nano, zone)) => if zone == "+00:00" then Some((hour, minute, second, nano)) else None
  }

  /** yyyy-mm-ddT and a clock. */
  function ReadCivil(s: string): Option<Civil> {
    match Field(s, 4, '-')
    case None => None
    case Some((year, s1)) =>
      match Field(s1, 2, '-')
      case None => None
      case Some((month, s2)) =>
        match Field(s2, 2, 'T')
        case None => None
        case Some((day, s3)) =>
          match ReadClock(s3)
          case None => None
          case Some((hour, minute, second, nano)) => Some(Civil(year, month, day, hour, minute, second, nano))
  }

  /** The instant a text denotes. */
  function Read(s: string): Option<int> {
    match ReadCivil(s)
    case None => None
    case Some(c) => if ValidCivil(c) then Some(FromCivil(c)) else None
  }

  // ---------------------------------------------------------------- reading back

  lemma {:induction false} TakePad(n: nat, w: nat, rest: string)
    requires n < Pow10(w)
    ensures Take(Pad(n, w) + rest, w) == Some((n, rest))
  {
    if w == 0 {
      assert Pad(n, 0) + rest == rest;
    } else {
      var last := [Digit(n % 10)];
      TakePad(n / 10, w - 1, last + rest);
      assert Pad(n, w) + rest == Pad(n / 10, w - 1) + (last + rest);
      assert (last + rest)[0] == last[0] && (last + rest)[1..] == rest;
      DigitIs(n % 10);
    }
  }

  lemma DigitIs(d: nat)
    requires d < 10
    ensures Digit(d) as int - '0' as int == d
  {
  }

  lemma FieldPad(n: nat, w: nat, separator: char, rest: string)
    requires n < Pow10(w)
    ensures Field(Pad(n, w) + ([separator] + rest), w, separator) == Some((n, rest))
  {
    TakePad(n, w, [separator] + rest);
  }

  lemma {:induction false} DigitsOf(s: string, rest: string)
    requires (forall i :: 0 <= i < |s| ==> '0' <= s[i] <= '9') && rest != "" && !('0' <= rest[0] <= '9')
    ensures Digits(s + rest) == |s|
  {
    if s == "" {
      assert s + rest == rest;
    } else {
      assert (s + rest)[1..] == s[1..] + rest;
      DigitsOf(s[1..], rest);
    }
  }

  lemma FractionTail(n: nat)
    requires n < NANOS
    ensures Fraction(Tail(n)) == Some((n, "+00:00"))
  {
    Pow10Values();
    if n > 0 {
      var w, v := FractionWidth(n), FractionValue(n);
      var digits := Pad(v, w) + ZONE;
      assert Tail(n)[1..] == digits;
      DigitsOf(Pad(v, w), ZONE);
      TakePad(v, w, ZONE);
    }
  }

  lemma ClockReadsBack(c: Civil)
    requires ValidCivil(c)
    ensures ReadClock(ClockText(c)) == Some((c.hour, c.minute, c.second, c.nano))
  {
    Pow10Values();
    var seconds := Pad(c.second, 2) + Tail(c.nano);
    var minutes := Pad(c.minute, 2) + (":" + seconds);
    FieldPad(c.hour, 2, ':', minutes);
    FieldPad(c.minute, 2, ':', seconds);
    TakePad(c.second, 2, Tail(c.nano));
    FractionTail(c.nano);
  }

  lemma CivilReadsBack(c: Civil)
    requires ValidCivil(c)
    ensures ReadCivil(CivilText(c)) == Some(c)
  {
    Pow10Values();
    var days := Pad(c.day, 2) + ("T" + ClockText(c));
    var months := Pad(c.month, 2) + ("-" + days);
    FieldPad(c.year, 4, '-', months);
    FieldPad(c.month, 2, '-', days);
    FieldPad(c.day, 2, 'T', ClockText(c));
    ClockReadsBack(c);
  }

  /** Every time text reads back as the instant it was made of, separators, fraction and zone included. */
  lemma ReadsBack(t: Instant)
    ensures Read(ToText(t)) == Some(t)
  {
    CivilReadsBack(ToCivil(t));
    CivilRoundTrip(t);
  }

  /** Civil fields are those of the instant they make. */
  lemma FieldsBack(c: Civil)
    requires ValidCivil(c) && 0 <= FromCivil(c) < MAX_DAY * DAY_NANOS
    ensures ToCivil(FromCivil(c)) == c
  {
    var d := ToCivil(FromCivil(c));
    CivilRoundTrip(FromCivil(c));
    if CivilLess(c, d) {
      CivilLessIsEarlier(c, d);
    } else if CivilLess(d, c) {
      CivilLessIsEarlier(d, c);
    }
  }

  const EPOCH := Civil(1970, 1, 1, 0, 0, 0, 0)

  lemma EpochCivil(t: Instant)
    requires t == 719_528 * DAY_NANOS
    ensures ToCivil(t) == EPOCH
  {
    assert DaysBeforeMonth(1970, 1) == 0;
    assert DayNumber(EPOCH) == 719_528;
    FieldsBack(EPOCH);
  }

  lemma EpochClock(c: Civil)
    requires c == EPOCH
    ensures ClockText(c) == "00:00:00+00:00"
  {
    EpochDigits();
    assert Tail(0) == "+00:00";
    assert Pad(0, 2) + Tail(0) == "00+00:00";
    assert Pad(0, 2) + (":" + "00+00:00") == "00:00+00:00";
  }

  lemma EpochDate(c: Civil)
    requires c == EPOCH
    ensures CivilText(c) == "1970-01-01T" + "00:00:00+00:00"
  {
    EpochDigits();
    EpochClock(c);
    JoinDate("1970", "01", "01", ClockText(c));
  }

  lemma JoinDate(year: string, month: string, day: string, clock: string)
    ensures year + ("-" + (month + ("-" + (day + ("T" + clock))))) == (year + "-" + month + "-" + day + "T") + clock
  {
  }

  /** The Unix epoch, day 719528 of the calendar that starts with the year 0. */
  lemma EpochText(t: Instant)
    requires t == 719_528 * DAY_NANOS
    ensures ToText(t) == "1970-01-01T" + "00:00:00+00:00"
  {
    EpochCivil(t);
    EpochDate(ToCivil(t));
  }

  lemma EpochDigits()
    ensures 1970 < Pow10(4) && 1 < Pow10(2) && 0 < Pow10(2)
    ensures Pad(1970, 4) == "1970" && Pad(1, 2) == "01" && Pad(0, 2) == "00"
  {
    Pow10Values();
    assert Pad(19, 2) == Pad(1, 1) + "9" && Pad(1, 1) == Pad(0, 0) + "1";
    assert Pad(197, 3) == Pad(19, 2) + "7";
    assert Pad(1970, 4) == Pad(197, 3) + "0";
    assert Pad(1, 2) == Pad(0, 1) + "1" && Pad(0, 1) == Pad(0, 0) + "0" && Pad(0, 2) == Pad(0, 1) + "0";
  }

  lemma CivilLength(c: Civil)
    requires ValidCivil(c)
    ensures |CivilText(c)| == if c.nano == 0 then 25
                              else if c.nano % 1_000_000 == 0 then 29
                              else if c.nano % 1_000 == 0 then 32
                              else 35
  {
    CivilShape(c);
    ClockShape(c);
    TailShape(c.nano);
  }

  lemma NanoOf(t: Instant)
    ensures ToCivil(t).nano == t % 1_000_000_000
  {
  }

  /** The text is as long as the shortest fraction of 0, 3, 6 or 9 digits needs. */
  lemma LengthExactly(t: Instant)
    ensures var nano := t % 1_000_000_000;
            |ToText(t)| == if nano == 0 then 25
                           else if nano % 1_000_000 == 0 then 29
                           else if nano % 1_000 == 0 then 32
                           else 35
  {
    NanoOf(t);
    CivilLength(ToCivil(t));
  }
}
