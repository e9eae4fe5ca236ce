/**
  Expiry times compared as text (rust/src/domain/activities.rs:24-34, rust/src/auth/session.rs:30-34,
  124-136). A stored time is RFC 3339 text in UTC (section 5.6), with as many fraction digits as its
  writer printed; SQLite's `datetime('now')` has a space instead of the `T` and no fraction.
 */
module Timestamps {
  type Digit = n: nat | n < 10

  datatype Date = Date(year: nat, month: nat, day: nat)

  datatype Stamp = Stamp(date: Date, hour: nat, minute: nat, second: nat, fraction: seq<Digit>)

  // ---------------------------------------------------------------------------
  // The calendar
  // ---------------------------------------------------------------------------

  predicate Leap(year: nat) {
    year % 4 == 0 && (year % 100 != 0 || year % 400 == 0)
  }

  function MonthLength(year: nat, month: nat): nat {
    if month == 2 then (if Leap(year) then 29 else 28)
    else if month == 4 || month == 6 || month == 9 || month == 11 then 30
    else 31
  }

  predicate ValidDate(d: Date) {
    d.year <= 9999 && 1 <= d.month <= 12 && 1 <= d.day <= MonthLength(d.year, d.month)
  }

  predicate Valid(s: Stamp) {
    ValidDate(s.date) && s.hour < 24 && s.minute < 60 && s.second < 60
  }

  function DaysBeforeYear(year: nat): nat {
    if year == 0 then 0 else DaysBeforeYear(year - 1) + if Leap(year - 1) then 366 else 365
  }

  function DaysBeforeMonth(year: nat, month: nat): nat {
    if month <= 1 then 0 else DaysBeforeMonth(year, month - 1) + MonthLength(year, month - 1)
  }

  /** The number of a day, counted from the first of January of year 0. */
  function DayNumber(d: Date): nat {
    DaysBeforeYear(d.year) + DaysBeforeMonth(d.year, d.month) + d.day
  }

  function Seconds(s: Stamp): nat {
    DayNumber(s.date) * 86400 + s.hour * 3600 + s.minute * 60 + s.second
  }

  /** The value of the digits after the point. */
  function Fraction(digits: seq<Digit>): (r: real)
    ensures 0.0 <= r < 1.0
  {
    if digits == [] then 0.0 else (digits[0] as real + Fraction(digits[1..])) / 10.0
  }

  function Instant(s: Stamp): real {
    Seconds(s) as real + Fraction(s.fraction)
  }

  // ---------------------------------------------------------------------------
  // The text
  // ---------------------------------------------------------------------------

  function DigitChar(d: Digit): char {
    '0' + d as char
  }

  function Two(n: nat): string
    requires n < 100
  {
    [DigitChar(n / 10), DigitChar(n % 10)]
  }

  function Four(n: nat): string
    requires n < 10000
  {
    Two(n / 100) + Two(n % 100)
  }

  function DigitText(digits: seq<Digit>): (r: string)
    ensures |r| == |digits|
  {
    if digits == [] then [] else [DigitChar(digits[0])] + DigitText(digits[1..])
  }

  function DateText(d: Date): string
    requires ValidDate(d)
  {
    Four(d.year) + ("-" + (Two(d.month) + ("-" + Two(d.day))))
  }

  function ClockText(s: Stamp): string
    requires Valid(s)
  {
    Two(s.hour) + (":" + (Two(s.minute) + (":" + Two(s.second))))
  }

  function FractionText(digits: seq<Digit>): string {
    if digits == [] then "Z" else "." + (DigitText(digits) + "Z")
  }

  /** RFC 3339 text, as the `time` crate and `toISOString` print it. */
  function Rfc3339(s: Stamp): string
    requires Valid(s)
  {
    DateText(s.date) + ("T" + (ClockText(s) + FractionText(s.fraction)))
  }

  /** What SQLite's `datetime` prints. */
  function SqlText(s: Stamp): string
    requires Valid(s)
  {
    DateText(s.date) + (" " + ClockText(s))
  }

  /** The order of Rust strings and of SQLite's BINARY collation on ASCII text. */
  predicate LexLess(a: string, b: string) {
    b != [] && (a == [] || a[0] < b[0] || (a[0] == b[0] && LexLess(a[1..], b[1..])))
  }

  /** `expired`: the current time, printed, is after the stored text. */
  predicate Expired(now: Stamp, expires: Stamp)
    requires Valid(now) && Valid(expires)
  {
    LexLess(Rfc3339(expires), Rfc3339(now))
  }

  /** `s.expires_at > datetime('now')`. */
  predicate SessionLive(now: Stamp, expires: Stamp)
    requires Valid(now) && Valid(expires)
  {
    LexLess(SqlText(now), Rfc3339(expires))
  }

  // ---------------------------------------------------------------------------
  // Comparing text field by field
  // ---------------------------------------------------------------------------

  lemma {:induction false} SamePrefix(p: string, a: string, b: string)
    ensures LexLess(p + a, p + b) == LexLess(a, b)
  {
    if p == [] {
      assert p + a == a && p + b == b;
    } else {
      SamePrefix(p[1..], a, b);
      assert (p + a)[1..] == p[1..] + a && (p + b)[1..] == p[1..] + b;
    }
  }

  /** Texts of one length decide before anything that follows them. */
  lemma {:induction false} FieldFirst(p: string, a: string, q: string, b: string)
    requires |p| == |q| && p != q
    ensures LexLess(p + a, q + b) == LexLess(p, q)
  {
    assert (p + a)[0] == p[0] && (q + b)[0] == q[0];
    if p[0] == q[0] {
      assert p == [p[0]] + p[1..] && q == [q[0]] + q[1..];
      FieldFirst(p[1..], a, q[1..], b);
      assert (p + a)[1..] == p[1..] + a && (q + b)[1..] == q[1..] + b;
    }
  }

  lemma TwoOrder(m: nat, n: nat)
    requires m < 100 && n < 100
    ensures LexLess(Two(m), Two(n)) <==> m < n
    ensures Two(m) == Two(n) <==> m == n
  {
    var a, b := Two(m), Two(n);
    assert a[0] < b[0] <==> m / 10 < n / 10;
    assert a[1..] == [a[1]] && b[1..] == [b[1]] && a[1..][1..] == [];
    assert a[1] < b[1] <==> m % 10 < n % 10;
    assert LexLess(a[1..], b[1..]) <==> a[1] < b[1];
  }

  lemma FourOrder(m: nat, n: nat)
    requires m < 10000 && n < 10000
    ensures LexLess(Four(m), Four(n)) <==> m < n
    ensures Four(m) == Four(n) <==> m == n
  {
    TwoOrder(m / 100, n / 100);
    TwoOrder(m % 100, n % 100);
    hide Two, LexLess;
    if m / 100 != n / 100 {
      FieldFirst(Two(m / 100), Two(m % 100), Two(n / 100), Two(n % 100));
      assert Four(m)[..2] == Two(m / 100) && Four(n)[..2] == Two(n / 100) by {
        assert |Two(m / 100)| == 2;
      }
    } else {
      SamePrefix(Two(m / 100), Two(m % 100), Two(n % 100));
      assert Four(m)[2..] == Two(m % 100) && Four(n)[2..] == Two(n % 100);
    }
  }

  lemma FieldThen(p: string, a: string, q: string, b: string)
    requires |p| == |q|
    ensures LexLess(p + a, q + b) <==> LexLess(p, q) || (p == q && LexLess(a, b))
    ensures p + a == q + b <==> p == q && a == b
  {
    assert (p + a)[..|p|] == p && (p + a)[|p|..] == a;
    assert (q + b)[..|p|] == q && (q + b)[|p|..] == b;
    if p == q {
      SamePrefix(p, a, b);
      SamePrefix(p, [], []);
      assert p + [] == p;
    } else {
      FieldFirst(p, a, q, b);
    }
  }

  predicate DateBefore(d: Date, e: Date) {
    d.year < e.year || (d.year == e.year && (d.month < e.month || (d.month == e.month && d.day < e.day)))
  }

  predicate ClockBefore(s: Stamp, t: Stamp) {
    s.hour < t.hour || (s.hour == t.hour && (s.minute < t.minute || (s.minute == t.minute && s.second < t.second)))
  }

  predicate SameClock(s: Stamp, t: Stamp) {
    s.hour == t.hour && s.minute == t.minute && s.second == t.second
  }

  /** Three fixed-width fields with separators, in the order of the fields. */
  lemma ThreeFields(p: string, q: string, r: string, p': string, q': string, r': string, sep: string)
    requires |p| == |p'| && |q| == |q'| && |r| == |r'|
    ensures var a, b := p + (sep + (q + (sep + r))), p' + (sep + (q' + (sep + r')));
            && |a| == |b|
            && (a == b <==> p == p' && q == q' && r == r')
            && (LexLess(a, b) <==>
                LexLess(p, p') || (p == p' && (LexLess(q, q') || (q == q' && LexLess(r, r')))))
  {
    hide LexLess;
    FieldThen(p, sep + (q + (sep + r)), p', sep + (q' + (sep + r')));
    SamePrefix(sep, q + (sep + r), q' + (sep + r'));
    FieldThen(sep, q + (sep + r), sep, q' + (sep + r'));
    FieldThen(q, sep + r, q', sep + r');
    SamePrefix(sep, r, r');
    FieldThen(sep, r, sep, r');
  }

  lemma DateTextOrder(d: Date, e: Date)
    requires ValidDate(d) && ValidDate(e)
    ensures |DateText(d)| == |DateText(e)| && (DateText(d) == DateText(e) <==> d == e)
    ensures LexLess(DateText(d), DateText(e)) <==> DateBefore(d, e)
  {
    FourOrder(d.year, e.year);
    TwoOrder(d.month, e.month);
    TwoOrder(d.day, e.day);
    ThreeFields(Four(d.year), Two(d.month), Two(d.day), Four(e.year), Two(e.month), Two(e.day), "-");
    hide LexLess, Four, Two;
  }

  lemma ClockTextOrder(s: Stamp, t: Stamp)
    requires Valid(s) && Valid(t)
    ensures |ClockText(s)| == |ClockText(t)| && (ClockText(s) == ClockText(t) <==> SameClock(s, t))
    ensures LexLess(ClockText(s), ClockText(t)) <==> ClockBefore(s, t)
  {
    TwoOrder(s.hour, t.hour);
    TwoOrder(s.minute, t.minute);
    TwoOrder(s.second, t.second);
    ThreeFields(Two(s.hour), Two(s.minute), Two(s.second), Two(t.hour), Two(t.minute), Two(t.second), ":");
    hide LexLess, Two;
  }

  /**
    The printed order of two fractions. A digit sorts before the closing `Z`, so text with more
    digits comes first.
   */
  predicate PrintedBefore(d: seq<Digit>, e: seq<Digit>) {
    d != [] && (e == [] || d[0] < e[0] || (d[0] == e[0] && PrintedBefore(d[1..], e[1..])))
  }

  lemma {:induction false} DigitTextOrder(d: seq<Digit>, e: seq<Digit>)
    ensures LexLess(DigitText(d) + "Z", DigitText(e) + "Z") <==> PrintedBefore(d, e)
  {
    var a, b := DigitText(d) + "Z", DigitText(e) + "Z";
    if d != [] && e != [] {
      DigitTextOrder(d[1..], e[1..]);
      assert a[1..] == DigitText(d[1..]) + "Z" && b[1..] == DigitText(e[1..]) + "Z";
    } else if d == [] && e == [] {
      assert a == b == "Z";
    }
  }

  lemma FractionTextOrder(d: seq<Digit>, e: seq<Digit>)
    ensures LexLess(FractionText(d), FractionText(e)) <==> PrintedBefore(d, e)
  {
    DigitTextOrder(d, e);
    SamePrefix(".", DigitText(d) + "Z", DigitText(e) + "Z");
    if d == [] || e == [] {
      var a, b := FractionText(d), FractionText(e);
      assert a[0] == if d == [] then 'Z' else '.';
      assert b[0] == if e == [] then 'Z' else '.';
    }
  }

  lemma Rfc3339Order(s: Stamp, t: Stamp)
    requires Valid(s) && Valid(t)
    ensures LexLess(Rfc3339(s), Rfc3339(t)) <==>
              || DateBefore(s.date, t.date)
              || (s.date == t.date && ClockBefore(s, t))
              || (s.date == t.date && SameClock(s, t) && PrintedBefore(s.fraction, t.fraction))
  {
    DateTextOrder(s.date, t.date);
    ClockTextOrder(s, t);
    FractionTextOrder(s.fraction, t.fraction);
    hide LexLess, DateText, ClockText, FractionText;
    FieldThen(DateText(s.date), "T" + (ClockText(s) + FractionText(s.fraction)),
              DateText(t.date), "T" + (ClockText(t) + FractionText(t.fraction)));
    SamePrefix("T", ClockText(s) + FractionText(s.fraction), ClockText(t) + FractionText(t.fraction));
    FieldThen(ClockText(s), FractionText(s.fraction), ClockText(t), FractionText(t.fraction));
  }

  // ---------------------------------------------------------------------------
  // Field order is time order
  // ---------------------------------------------------------------------------

  lemma {:induction false} YearsGrow(y: nat, z: nat)
    requires y <= z
    ensures DaysBeforeYear(y) <= DaysBeforeYear(z)
  {
    if y < z {
      YearsGrow(y, z - 1);
    }
  }

  lemma {:induction false} MonthsGrow(year: nat, m: nat, n: nat)
    requires 1 <= m <= n
    ensures DaysBeforeMonth(year, m) <= DaysBeforeMonth(year, n)
  {
    if m < n {
      MonthsGrow(year, m, n - 1);
    }
  }

  lemma YearLength(year: nat)
    ensures DaysBeforeMonth(year, 13) == if Leap(year) then 366 else 365
  {
    assert DaysBeforeMonth(year, 3) == DaysBeforeMonth(year, 2) + MonthLength(year, 2);
    assert DaysBeforeMonth(year, 5) == DaysBeforeMonth(year, 3) + 61;
    assert DaysBeforeMonth(year, 7) == DaysBeforeMonth(year, 5) + 61;
    assert DaysBeforeMonth(year, 9) == DaysBeforeMonth(year, 7) + 62;
    assert DaysBeforeMonth(year, 11) == DaysBeforeMonth(year, 9) + 61;
    assert DaysBeforeMonth(year, 13) == DaysBeforeMonth(year, 11) + 61;
  }

  lemma EarlierDate(d: Date, e: Date)
    requires ValidDate(d) && ValidDate(e) && DateBefore(d, e)
    ensures DayNumber(d) < DayNumber(e)
  {
    if d.year < e.year {
      YearsGrow(d.year + 1, e.year);
      MonthsGrow(d.year, d.month + 1, 13);
      YearLength(d.year);
    } else if d.month < e.month {
      MonthsGrow(d.year, d.month + 1, e.month);
    }
  }

  /** Dates are ordered as their days are, over the whole calendar. */
  lemma DateOrder(d: Date, e: Date)
    requires ValidDate(d) && ValidDate(e)
    ensures DateBefore(d, e) <==> DayNumber(d) < DayNumber(e)
    ensures d == e <==> DayNumber(d) == DayNumber(e)
  {
    if DateBefore(d, e) {
      EarlierDate(d, e);
    } else if DateBefore(e, d) {
      EarlierDate(e, d);
    }
  }

  lemma SecondsOrder(s: Stamp, t: Stamp)
    requires Valid(s) && Valid(t)
    ensures Seconds(s) < Seconds(t) <==> DateBefore(s.date, t.date) || (s.date == t.date && ClockBefore(s, t))
    ensures Seconds(s) == Seconds(t) <==> s.date == t.date && SameClock(s, t)
  {
    DateOrder(s.date, t.date);
    hide DayNumber, DateBefore, ValidDate;
  }

  // ---------------------------------------------------------------------------
  // Fractions
  // ---------------------------------------------------------------------------

  predicate OneExtends(d: seq<Digit>, e: seq<Digit>) {
    d <= e || e <= d
  }

  /** Unless one fraction continues the other, printed order is the order of the values. */
  lemma {:induction false} FractionOrder(d: seq<Digit>, e: seq<Digit>)
    ensures OneExtends(d, e) ==> (PrintedBefore(d, e) <==> e < d)
    ensures !OneExtends(d, e) ==> (PrintedBefore(d, e) <==> Fraction(d) < Fraction(e)) && Fraction(d) != Fraction(e)
    ensures d <= e ==> Fraction(d) <= Fraction(e)
  {
    if d != [] && e != [] {
      var d', e' := d[1..], e[1..];
      FractionOrder(d', e');
      assert d == [d[0]] + d' && e == [e[0]] + e';
      if d[0] == e[0] {
        assert d <= e <==> d' <= e';
        assert e <= d <==> e' <= d';
        assert d < e <==> d' < e';
        assert e < d <==> e' < d';
      } else {
        assert !OneExtends(d, e);
      }
    }
  }

  // ---------------------------------------------------------------------------
  // The main results
  // ---------------------------------------------------------------------------

  predicate SameSecond(now: Stamp, expires: Stamp) {
    now.date == expires.date && SameClock(now, expires)
  }

  /** `expired` tells the truth except within one second, when one printed fraction continues the other. */
  lemma ExpiryOrder(now: Stamp, expires: Stamp)
    requires Valid(now) && Valid(expires)
    ensures Expired(now, expires) <==>
            if SameSecond(now, expires) && OneExtends(now.fraction, expires.fraction)
            then now.fraction < expires.fraction
            else Instant(expires) < Instant(now)
  {
    Rfc3339Order(expires, now);
    SecondsOrder(expires, now);
    FractionOrder(expires.fraction, now.fraction);
    hide Rfc3339, Seconds, LexLess, DateBefore, ClockBefore, SameClock, Fraction, PrintedBefore, Valid;
  }

  /** Exactly when `expired` agrees with the clock. */
  lemma ExpiryExact(now: Stamp, expires: Stamp)
    requires Valid(now) && Valid(expires)
    ensures (Expired(now, expires) <==> Instant(expires) < Instant(now)) <==>
            !(SameSecond(now, expires) &&
              (now.fraction < expires.fraction ||
               (expires.fraction < now.fraction && Fraction(expires.fraction) < Fraction(now.fraction))))
  {
    ExpiryOrder(now, expires);
    FractionOrder(expires.fraction, now.fraction);
    FractionOrder(now.fraction, expires.fraction);
    SecondsOrder(expires, now);
    hide Expired, Seconds, DateBefore, ClockBefore, SameClock, Fraction, PrintedBefore, Valid;
  }

  /** However many digits are printed, `expired` is off by less than a second. */
  lemma ExpiryWithinASecond(now: Stamp, expires: Stamp)
    requires Valid(now) && Valid(expires)
    ensures Expired(now, expires) ==> Instant(expires) < Instant(now) + 1.0
    ensures !Expired(now, expires) ==> Instant(now) < Instant(expires) + 1.0
  {
    ExpiryOrder(now, expires);
    SecondsOrder(expires, now);
    hide Expired, Seconds, DateBefore, ClockBefore, SameClock, Fraction, PrintedBefore, Valid;
  }

  /** Half a second before a whole second, text says the whole second has passed. */
  lemma WholeSecondExpiresEarly()
    ensures var day := Date(2025, 1, 1);
            var now, expires := Stamp(day, 0, 0, 0, []), Stamp(day, 0, 0, 0, [5]);
            Expired(now, expires) && Instant(now) < Instant(expires)
  {
    var day := Date(2025, 1, 1);
    var now, expires := Stamp(day, 0, 0, 0, []), Stamp(day, 0, 0, 0, [5]);
    ExpiryOrder(now, expires);
    assert Fraction([5]) == 0.5 && Fraction([]) == 0.0;
    hide Expired, Seconds;
  }

  /**
    A session lives exactly through the UTC day of its expiry: it is never refused early, and it
    is accepted for less than 24 hours too long.
   */
  lemma SessionLivesThroughDay(now: Stamp, expires: Stamp)
    requires Valid(now) && Valid(expires)
    ensures SessionLive(now, expires) <==> DayNumber(now.date) <= DayNumber(expires.date)
    ensures Instant(now) <= Instant(expires) ==> SessionLive(now, expires)
    ensures SessionLive(now, expires) ==> Instant(now) < Instant(expires) + 86400.0
  {
    var rest := ClockText(expires) + FractionText(expires.fraction);
    DateTextOrder(now.date, expires.date);
    DateOrder(now.date, expires.date);
    FieldThen(DateText(now.date), " " + ClockText(now), DateText(expires.date), "T" + rest);
    assert (" " + ClockText(now))[0] == ' ' && ("T" + rest)[0] == 'T';
    assert LexLess(" " + ClockText(now), "T" + rest);
    hide LexLess, DayNumber, DateBefore, DateText, ClockText, FractionText, Fraction, ValidDate;
  }
}
