/** UTC timestamps printed as time.RFC3339Nano (RFC 3339, section 5.6, with trailing zeros of
    the fraction removed), and the proof that no two instants print alike. */
module Rfc3339 {
  import opened Text
  import opened Wrappers
  import opened Clock

  /** Nanoseconds since 0001-01-01T00:00:00Z in the proleptic Gregorian calendar. */
  type Instant = nat

  datatype Utc = Utc(year: nat, month: nat, day: nat, hour: nat, minute: nat, second: nat, nano: nat)

  predicate Leap(y: nat) {
    y % 4 == 0 && (y % 100 != 0 || y % 400 == 0)
  }

  function YearDays(y: nat): nat {
    if Leap(y) then 366 else 365
  }

  function MonthDays(y: nat, m: nat): nat {
    if m == 2 then (if Leap(y) then 29 else 28)
    else if m == 4 || m == 6 || m == 9 || m == 11 then 30
    else 31
  }

  // Days from 0001-01-01 to the first day of year y.
  function DaysBeforeYear(y: nat): nat {
    if y <= 1 then 0 else DaysBeforeYear(y - 1) + YearDays(y - 1)
  }

  // Days from the first of January of year y to the first of month m.
  function DaysBeforeMonth(y: nat, m: nat): nat {
    if m <= 1 then 0 else DaysBeforeMonth(y, m - 1) + MonthDays(y, m - 1)
  }

  /** Counts whole years off a day number: the year, and the day within it. */
  function SplitYear(days: nat, y: nat): (p: (nat, nat))
    requires 1 <= y
    ensures y <= p.0 && p.1 < YearDays(p.0)
    ensures DaysBeforeYear(p.0) + p.1 == DaysBeforeYear(y) + days
    decreases days
  {
    if days < YearDays(y) then (y, days) else SplitYear(days - YearDays(y), y + 1)
  }

  /** Counts whole months off a day of year y: the month, and the day within it. */
  function SplitMonth(days: nat, y: nat, m: nat): (p: (nat, nat))
    requires 1 <= m
    ensures m <= p.0
    ensures DaysBeforeMonth(y, p.0) + p.1 == DaysBeforeMonth(y, m) + days
    decreases days
  {
    if days < MonthDays(y, m) then (m, days) else SplitMonth(days - MonthDays(y, m), y, m + 1)
  }

  /** The calendar fields of an instant. */
  function Fields(t: Instant): Utc {
    var (y, dayOfYear) := SplitYear(t / DAY, 1);
    var (m, d) := SplitMonth(dayOfYear, y, 1);
    var s := t % DAY / SECOND;
    Utc(y, m, d + 1, s / 3600, s / 60 % 60, s % 60, t % SECOND)
  }

  /** The instant a calendar reading denotes. */
  function InstantOf(u: Utc): int {
    (DaysBeforeYear(u.year) + DaysBeforeMonth(u.year, u.month) + u.day - 1) * DAY
    + (u.hour * 3600 + u.minute * 60 + u.second) * SECOND + u.nano
  }

  lemma ClockParts(s: nat)
    ensures s == s / 3600 * 3600 + s / 60 % 60 * 60 + s % 60
  {
  }

  lemma InstantParts(t: Instant)
    ensures t == t / DAY * DAY + t % DAY / SECOND * SECOND + t % SECOND
  {
    assert t % DAY % SECOND == t % SECOND;
  }

  /** The calendar fields of every instant denote that instant. */
  lemma FieldsDenoteInstant(t: Instant)
    ensures InstantOf(Fields(t)) == t
  {
    ClockParts(t % DAY / SECOND);
    InstantParts(t);
  }

  /** ... and they are a valid calendar reading: months 1 to 12, days as the month has them, clock below
      24:00:00 (UTC without leap seconds). */
  lemma FieldsInRange(t: Instant)
    ensures var u := Fields(t);
            && 1 <= u.year && 1 <= u.month <= 12 && 1 <= u.day <= MonthDays(u.year, u.month)
            && u.hour < 24 && u.minute < 60 && u.second < 60 && u.nano < SECOND
  {
    var (y, dayOfYear) := SplitYear(t / DAY, 1);
    YearHasTwelveMonths(y);
    MonthInRange(dayOfYear, y, 1);
  }

  lemma YearHasTwelveMonths(y: nat)
    ensures DaysBeforeMonth(y, 13) == YearDays(y)
  {
    assert DaysBeforeMonth(y, 2) == DaysBeforeMonth(y, 1) + MonthDays(y, 1);
    assert DaysBeforeMonth(y, 3) == DaysBeforeMonth(y, 2) + MonthDays(y, 2);
    assert DaysBeforeMonth(y, 4) == DaysBeforeMonth(y, 3) + MonthDays(y, 3);
    assert DaysBeforeMonth(y, 5) == DaysBeforeMonth(y, 4) + MonthDays(y, 4);
    assert DaysBeforeMonth(y, 6) == DaysBeforeMonth(y, 5) + MonthDays(y, 5);
    assert DaysBeforeMonth(y, 7) == DaysBeforeMonth(y, 6) + MonthDays(y, 6);
    assert DaysBeforeMonth(y, 8) == DaysBeforeMonth(y, 7) + MonthDays(y, 7);
    assert DaysBeforeMonth(y, 9) == DaysBeforeMonth(y, 8) + MonthDays(y, 8);
    assert DaysBeforeMonth(y, 10) == DaysBeforeMonth(y, 9) + MonthDays(y, 9);
    assert DaysBeforeMonth(y, 11) == DaysBeforeMonth(y, 10) + MonthDays(y, 10);
    assert DaysBeforeMonth(y, 12) == DaysBeforeMonth(y, 11) + MonthDays(y, 11);
  }

  lemma {:induction false} MonthInRange(days: nat, y: nat, m: nat)
    requires 1 <= m <= 12 && DaysBeforeMonth(y, m) + days < DaysBeforeMonth(y, 13)
    ensures var p := SplitMonth(days, y, m); p.0 <= 12 && p.1 < MonthDays(y, p.0)
    decreases 12 - m
  {
    if days >= MonthDays(y, m) {
      assert DaysBeforeMonth(y, m + 1) == DaysBeforeMonth(y, m) + MonthDays(y, m);
      MonthInRange(days - MonthDays(y, m), y, m + 1);
    }
  }

  /** The Gregorian calendar in closed form: a leap day every fourth year, but for the centuries not divisible
      by four hundred; and from March on, months of 153 days in five. */
  lemma {:induction false} YearsInClosedForm(y: nat)
    requires 1 <= y
    ensures DaysBeforeYear(y) == 365 * (y - 1) + (y - 1) / 4 - (y - 1) / 100 + (y - 1) / 400
  {
    if y > 1 {
      YearsInClosedForm(y - 1);
      Fourths(y - 1);
    }
  }

  // How the three counts of leap days go up in year y.
  lemma Fourths(y: nat)
    requires 1 <= y
    ensures y / 4 == (y - 1) / 4 + (if y % 4 == 0 then 1 else 0)
    ensures y / 100 == (y - 1) / 100 + (if y % 100 == 0 then 1 else 0)
    ensures y / 400 == (y - 1) / 400 + (if y % 400 == 0 then 1 else 0)
    ensures y % 400 == 0 ==> y % 100 == 0
    ensures y % 100 == 0 ==> y % 4 == 0
  {
  }

  lemma {:induction false} MonthsInClosedForm(y: nat, m: nat)
    requires 1 <= m <= 13
    ensures DaysBeforeMonth(y, m) ==
            if m == 1 then 0 else if m == 2 then 31 else 59 + (153 * (m - 3) + 2) / 5 + if Leap(y) then 1 else 0
  {
    if m > 1 {
      MonthsInClosedForm(y, m - 1);
    }
  }

  function TrimZeros(s: string): (r: string)
    ensures |r| <= |s| && s == r + Zeros(|s| - |r|)
    ensures AllDigits(s) ==> AllDigits(r)
  {
    if s != "" && s[|s| - 1] == '0' then TrimZeros(s[..|s| - 1]) else s
  }

  /** The fraction of a second: nothing when it is zero, else a point and its digits up to the last nonzero one. */
  function Fraction(nano: nat): string {
    if nano == 0 then "" else "." + TrimZeros(Pad(nano, 9))
  }

  function ClockText(u: Utc): string {
    Pad(u.hour, 2) + ":" + (Pad(u.minute, 2) + ":" + (Pad(u.second, 2) + Fraction(u.nano) + "Z"))
  }

  /** t.UTC().Format(time.RFC3339Nano). */
  function Format(t: Instant): string {
    var u := Fields(t);
    Pad(u.year, 4) + "-" + (Pad(u.month, 2) + "-" + (Pad(u.day, 2) + "T" + ClockText(u)))
  }

  lemma FractionInjective(a: nat, b: nat)
    requires a < SECOND && b < SECOND
    requires Fraction(a) == Fraction(b)
    ensures a == b
  {
    assert Pow10(9) == SECOND;
    if a != 0 && b != 0 {
      PadWidth(a, 9);
      PadWidth(b, 9);
      assert Fraction(a)[1..] == TrimZeros(Pad(a, 9)) && Fraction(b)[1..] == TrimZeros(Pad(b, 9));
      ValuePad(a, 9);
      ValuePad(b, 9);
    }
  }

  lemma ClockTextInjective(u: Utc, v: Utc)
    requires u.second < 60 && v.second < 60 && u.nano < SECOND && v.nano < SECOND
    requires ClockText(u) == ClockText(v)
    ensures u.hour == v.hour && u.minute == v.minute && u.second == v.second && u.nano == v.nano
  {
    var su, sv := Pad(u.second, 2) + Fraction(u.nano) + "Z", Pad(v.second, 2) + Fraction(v.nano) + "Z";
    CutUnique(':', Pad(u.hour, 2), Pad(u.minute, 2) + ":" + su, Pad(v.hour, 2), Pad(v.minute, 2) + ":" + sv);
    CutUnique(':', Pad(u.minute, 2), su, Pad(v.minute, 2), sv);
    PadWidth(u.second, 2);
    PadWidth(v.second, 2);
    assert Pow10(2) == 100;
    assert su[..2] == Pad(u.second, 2) && sv[..2] == Pad(v.second, 2);
    assert su[2..|su| - 1] == Fraction(u.nano) && sv[2..|sv| - 1] == Fraction(v.nano);
    FractionInjective(u.nano, v.nano);
    ValuePad(u.hour, 2);   ValuePad(v.hour, 2);
    ValuePad(u.minute, 2); ValuePad(v.minute, 2);
    ValuePad(u.second, 2); ValuePad(v.second, 2);
  }

  /** Two instants with the same RFC 3339 text are the same instant. */
  lemma FormatInjective(s: Instant, t: Instant)
    ensures Format(s) == Format(t) ==> s == t
  {
    if Format(s) == Format(t) {
      SameText(s, t);
    }
  }

  lemma SameText(s: Instant, t: Instant)
    requires Format(s) == Format(t)
    ensures s == t
  {
    var u, v := Fields(s), Fields(t);
    var du, dv := Pad(u.day, 2) + "T" + ClockText(u), Pad(v.day, 2) + "T" + ClockText(v);
    CutUnique('-', Pad(u.year, 4), Pad(u.month, 2) + "-" + du, Pad(v.year, 4), Pad(v.month, 2) + "-" + dv);
    CutUnique('-', Pad(u.month, 2), du, Pad(v.month, 2), dv);
    CutUnique('T', Pad(u.day, 2), ClockText(u), Pad(v.day, 2), ClockText(v));
    ClockTextInjective(u, v);
    ValuePad(u.year, 4);  ValuePad(v.year, 4);
    ValuePad(u.month, 2); ValuePad(v.month, 2);
    ValuePad(u.day, 2);   ValuePad(v.day, 2);
    FieldsDenoteInstant(s);
    FieldsDenoteInstant(t);
  }

  /** The text of a timestamp is free of the audit preimage's separator. */
  lemma FormatHasNoPipe(t: Instant)
    ensures '|' !in Format(t)
  {
    var u := Fields(t);
    assert AllDigits(TrimZeros(Pad(u.nano, 9)));
    assert '|' !in Fraction(u.nano);
    assert '|' !in ClockText(u);
  }

  // ---- Reading ----

  /** Nanoseconds from a fraction of a second: none, or a point and up to nine digits. */
  function ReadFraction(s: string): Option<nat> {
    if s == "" then Some(0)
    else if s[0] == '.' && 2 <= |s| <= 10 && AllDigits(s[1..]) then Some(Value(s[1..]) * Pow10(10 - |s|))
    else None
  }

  function ReadNumber(s: string): Option<nat> {
    if AllDigits(s) then Some(Value(s)) else None
  }

  /** Reads a UTC date-time of section 5.6 of RFC 3339: full-date, T, full-time without offset, Z. */
  function ReadTime(f: string): Option<int> {
    if |f| < 20 || f[4] != '-' || f[7] != '-' || f[10] != 'T' || f[13] != ':' || f[16] != ':' || f[|f| - 1] != 'Z'
    then None
    else
      var y, m, d := ReadNumber(f[..4]), ReadNumber(f[5..7]), ReadNumber(f[8..10]);
      var h, min, s := ReadNumber(f[11..13]), ReadNumber(f[14..16]), ReadNumber(f[17..19]);
      var nano := ReadFraction(f[19..|f| - 1]);
      if y.None? || m.None? || d.None? || h.None? || min.None? || s.None? || nano.None? then None
      else Some(InstantOf(Utc(y.value, m.value, d.value, h.value, min.value, s.value, nano.value)))
  }

  lemma FractionReadsBack(nano: nat)
    requires nano < SECOND
    ensures ReadFraction(Fraction(nano)) == Some(nano)
  {
    if nano != 0 {
      assert Pow10(9) == SECOND;
      PadWidth(nano, 9);
      ValuePad(nano, 9);
      var digits := TrimZeros(Pad(nano, 9));
      ValueTrailingZeros(digits, 9 - |digits|);
      assert Value("") == 0;
      assert Fraction(nano)[1..] == digits;
    }
  }

  lemma {:induction false} TrimmedEnd(s: string)
    ensures TrimZeros(s) != "" ==> TrimZeros(s)[|TrimZeros(s)| - 1] != '0'
  {
    if s != "" && s[|s| - 1] == '0' {
      TrimmedEnd(s[..|s| - 1]);
    }
  }

  /** No fraction is written for a whole second, and no fraction ends in a zero. */
  lemma FractionIsShortest(nano: nat)
    requires nano < SECOND
    ensures Fraction(nano) == "" <==> nano == 0
    ensures nano != 0 ==> Fraction(nano)[0] == '.' && Fraction(nano)[|Fraction(nano)| - 1] != '0'
  {
    if nano != 0 {
      FractionReadsBack(nano);
      TrimmedEnd(Pad(nano, 9));
      assert Fraction(nano) == "." + TrimZeros(Pad(nano, 9));
      assert ReadFraction(".").None?;
    }
  }

  lemma NumberReadsBack(n: nat, width: nat)
    requires 0 < width && n < Pow10(width)
    ensures |Pad(n, width)| == width && ReadNumber(Pad(n, width)) == Some(n)
  {
    PadWidth(n, width);
    ValuePad(n, width);
  }

  // The places of the fields.
  lemma Places(y: string, m: string, d: string, h: string, min: string, s: string, frac: string)
    requires |y| == 4 && |m| == |d| == |h| == |min| == |s| == 2
    ensures var f := y + "-" + (m + "-" + (d + "T" + (h + ":" + (min + ":" + (s + frac + "Z")))));
            && |f| == 20 + |frac| && f[..4] == y && f[4] == '-' && f[5..7] == m && f[7] == '-' && f[8..10] == d
            && f[10] == 'T' && f[11..13] == h && f[13] == ':' && f[14..16] == min && f[16] == ':'
            && f[17..19] == s && f[19..|f| - 1] == frac && f[|f| - 1] == 'Z'
  {
  }

  /** Every timestamp up to the year 9999 reads back from its text as a date-time of RFC 3339. */
  lemma FormatReadsBack(t: Instant)
    requires Fields(t).year <= 9999
    ensures ReadTime(Format(t)) == Some(t)
  {
    var u := Fields(t);
    FieldsInRange(t);
    assert Pow10(2) == 100 && Pow10(4) == 10_000;
    NumberReadsBack(u.year, 4);
    NumberReadsBack(u.month, 2);
    NumberReadsBack(u.day, 2);
    NumberReadsBack(u.hour, 2);
    NumberReadsBack(u.minute, 2);
    NumberReadsBack(u.second, 2);
    FractionReadsBack(u.nano);
    Places(Pad(u.year, 4), Pad(u.month, 2), Pad(u.day, 2), Pad(u.hour, 2), Pad(u.minute, 2), Pad(u.second, 2),
           Fraction(u.nano));
    FieldsDenoteInstant(t);
  }
}
