/** The timestamp conversion of rulepack exceptions: the closed-form day number is the count of days,
    and accepted timestamps order as numbers exactly as they order as strings. */
module Calendar {
  import opened Text
  import opened Tokens

  predicate IsLeapYear(year: int) { (year % 4 == 0 && year % 100 != 0) || year % 400 == 0 }

  function DaysInMonth(year: int, month: nat): nat {
    if month in {1, 3, 5, 7, 8, 10, 12} then 31
    else if month in {4, 6, 9, 11} then 30
    else if month == 2 then (if IsLeapYear(year) then 29 else 28)
    else 0
  }

  /** Rust's `/`, which truncates toward zero. */
  function Truncated(a: int, b: nat): int
    requires b > 0
  {
    if a >= 0 then a / b else -((-a) / b)
  }

  /** The closed form: years start in March and run in eras of 400. */
  function DaysFromCivil(year: int, month: nat, day: nat): int {
    var y := year - if month <= 2 then 1 else 0;
    var era := Truncated(if y >= 0 then y else y - 399, 400);
    var yearOfEra := y - era * 400;
    var dayOfYear := (153 * (month + if month > 2 then -3 else 9) + 2) / 5 + day - 1;
    var dayOfEra := yearOfEra * 365 + yearOfEra / 4 - yearOfEra / 100 + dayOfYear;
    era * 146097 + dayOfEra - 719468
  }

  predicate IsDate(year: int, month: nat, day: nat) {
    1 <= month <= 12 && 1 <= day <= DaysInMonth(year, month)
  }

  // ----- counting days -----

  /** Days of the months before `month`. */
  function DaysBefore(year: int, month: nat): nat {
    if month <= 1 then 0 else DaysBefore(year, month - 1) + DaysInMonth(year, month - 1)
  }

  function DaysInYear(year: int): nat { DaysBefore(year, 13) }

  /** Days from 1 January 1970 to 1 January of `year`, counted year by year in either direction. */
  function YearStart(year: int): int
    decreases if year >= 1970 then year - 1970 else 1970 - year
  {
    if year == 1970 then 0
    else if year > 1970 then YearStart(year - 1) + DaysInYear(year - 1)
    else YearStart(year + 1) - DaysInYear(year)
  }

  function CountedDays(year: int, month: nat, day: nat): int {
    YearStart(year) + DaysBefore(year, month) + day - 1
  }

  /** The start of a March-based year, without eras. */
  function MarchStart(y: int): int { 365 * y + y / 4 - y / 100 + y / 400 - 719468 }

  lemma ErasCancel(year: int, month: nat, day: nat)
    ensures var y := year - if month <= 2 then 1 else 0;
      DaysFromCivil(year, month, day)
        == MarchStart(y) + (153 * (month + if month > 2 then -3 else 9) + 2) / 5 + day - 1
  {
    var y := year - if month <= 2 then 1 else 0;
    var era := Truncated(if y >= 0 then y else y - 399, 400);
    assert era == y / 400;
    assert y / 4 == 100 * era + (y - era * 400) / 4;
    assert y / 100 == 4 * era + (y - era * 400) / 100;
  }

  lemma MonthTable(year: int)
    ensures DaysBefore(year, 1) == 0 && DaysBefore(year, 2) == 31
    ensures var leap := if IsLeapYear(year) then 1 else 0;
      && DaysBefore(year, 3) == 59 + leap && DaysBefore(year, 4) == 90 + leap && DaysBefore(year, 5) == 120 + leap
      && DaysBefore(year, 6) == 151 + leap && DaysBefore(year, 7) == 181 + leap && DaysBefore(year, 8) == 212 + leap
      && DaysBefore(year, 9) == 243 + leap && DaysBefore(year, 10) == 273 + leap && DaysBefore(year, 11) == 304 + leap
      && DaysBefore(year, 12) == 334 + leap && DaysBefore(year, 13) == 365 + leap
  {
    hide IsLeapYear;
    assert DaysBefore(year, 3) == DaysBefore(year, 2) + DaysInMonth(year, 2);
    assert DaysBefore(year, 5) == DaysBefore(year, 4) + 30;
    assert DaysBefore(year, 7) == DaysBefore(year, 6) + 30;
    assert DaysBefore(year, 9) == DaysBefore(year, 8) + 31;
    assert DaysBefore(year, 11) == DaysBefore(year, 10) + 31;
    assert DaysBefore(year, 13) == DaysBefore(year, 12) + 31;
  }

  /** One year further is one year's days further. */
  lemma JanuaryStep(year: int)
    ensures DaysFromCivil(year + 1, 1, 1) == DaysFromCivil(year, 1, 1) + DaysInYear(year)
  {
    hide DaysFromCivil, DaysBefore;
    MonthTable(year);
    ErasCancel(year + 1, 1, 1);
    ErasCancel(year, 1, 1);
    LeapStep(year);
  }

  lemma LeapStep(year: int)
    ensures MarchStart(year) == MarchStart(year - 1) + 365 + if IsLeapYear(year) then 1 else 0
  {
    DividesStep(year, 4);
    DividesStep(year, 100);
    DividesStep(year, 400);
    CenturyRules(year);
  }

  lemma DividesStep(a: int, n: nat)
    requires n > 1
    ensures a / n == (a - 1) / n + if a % n == 0 then 1 else 0
  {
    var q, r := a / n, a % n;
    if r == 0 {
      assert a - 1 == n * (q - 1) + (n - 1);
      Quotient(a - 1, n, q - 1, n - 1);
    } else {
      assert a - 1 == n * q + (r - 1);
      Quotient(a - 1, n, q, r - 1);
    }
  }

  lemma Multiples(n: int, d: int)
    requires n > 0
    ensures d >= 1 ==> n * d >= n
    ensures d <= -1 ==> n * d <= -n
  {
    if d >= 1 {
      assert n * d == n + n * (d - 1);
    } else if d <= -1 {
      assert n * d == -n + n * (d + 1);
    }
  }

  /** Quotient and remainder are unique. */
  lemma Quotient(a: int, n: int, q: int, r: int)
    requires n > 0 && a == n * q + r && 0 <= r < n
    ensures a / n == q && a % n == r
  {
    var p, m := a / n, a % n;
    assert a == n * p + m && 0 <= m < n;
    assert n * (q - p) == n * q - n * p == m - r;
    Multiples(n, q - p);
    assert q == p;
  }

  lemma CenturyRules(year: int)
    ensures year % 400 == 0 ==> year % 100 == 0
    ensures year % 100 == 0 ==> year % 4 == 0
  {
  }

  lemma {:induction false} JanuaryCounted(year: int)
    ensures DaysFromCivil(year, 1, 1) == YearStart(year)
    decreases if year >= 1970 then year - 1970 else 1970 - year
  {
    hide DaysFromCivil, DaysInYear;
    if year == 1970 {
      ErasCancel(1970, 1, 1);
    } else if year > 1970 {
      JanuaryCounted(year - 1);
      JanuaryStep(year - 1);
    } else {
      JanuaryCounted(year + 1);
      JanuaryStep(year);
    }
  }

  /** Within a year, the closed form adds the days of the months gone by. */
  lemma MonthsCounted(year: int, month: nat, day: nat)
    requires 1 <= month <= 12
    ensures DaysFromCivil(year, month, day) == DaysFromCivil(year, 1, 1) + DaysBefore(year, month) + day - 1
  {
    hide DaysFromCivil, DaysBefore;
    MonthTable(year);
    ErasCancel(year, month, day);
    ErasCancel(year, 1, 1);
    LeapStep(year);
  }

  /** For every Gregorian date, the closed form is the number of days counted from 1 January 1970. */
  lemma DaysFromCivilCounts(year: int, month: nat, day: nat)
    requires IsDate(year, month, day)
    ensures DaysFromCivil(year, month, day) == CountedDays(year, month, day)
  {
    hide DaysFromCivil, DaysBefore, YearStart;
    JanuaryCounted(year);
    MonthsCounted(year, month, day);
  }

  // ----- timestamps -----

  datatype Stamp = Stamp(year: nat, month: nat, day: nat, hour: nat, minute: nat, second: nat)

  predicate ShapeOk(s: string) {
    && |s| == 20
    && s[4] == '-' && s[7] == '-' && s[10] == 'T' && s[13] == ':' && s[16] == ':' && s[19] == 'Z'
    && AllDigits(s[0..4]) && AllDigits(s[5..7]) && AllDigits(s[8..10])
    && AllDigits(s[11..13]) && AllDigits(s[14..16]) && AllDigits(s[17..19])
  }

  function StampOf(s: string): Stamp
    requires ShapeOk(s)
  {
    Stamp(NumeralValue(s[0..4]), NumeralValue(s[5..7]), NumeralValue(s[8..10]),
          NumeralValue(s[11..13]), NumeralValue(s[14..16]), NumeralValue(s[17..19]))
  }

  predicate StampOk(t: Stamp) {
    IsDate(t.year, t.month, t.day) && t.hour <= 23 && t.minute <= 59 && t.second <= 59
  }

  function Seconds(t: Stamp): int {
    DaysFromCivil(t.year, t.month, t.day) * 86400 + (t.hour * 3600 + t.minute * 60 + t.second)
  }

  /** `parse_strict_utc_rfc3339`. */
  function ParseUtc(s: string): Option<int> {
    if ShapeOk(s) && StampOk(StampOf(s)) then Some(Seconds(StampOf(s))) else None
  }

  /** The two-digit and the four-digit fields of a text. */
  function Two(s: string, i: nat): int
    requires i + 2 <= |s|
  {
    (s[i] as int - 48) * 10 + (s[i + 1] as int - 48)
  }

  function Four(s: string, i: nat): int
    requires i + 4 <= |s|
  {
    Two(s, i) * 100 + Two(s, i + 2)
  }

  lemma TwoDigits(s: string, i: nat)
    requires i + 2 <= |s| && AllDigits(s[i..i + 2])
    ensures NumeralValue(s[i..i + 2]) == Two(s, i)
  {
    hide NumeralValue;
    assert s[i..i + 2] == [s[i], s[i + 1]] == ("" + [s[i]]) + [s[i + 1]];
    assert IsDigit(s[i..i + 2][0]) && IsDigit(s[i..i + 2][1]);
    NextDigit("", s[i]);
    NextDigit("" + [s[i]], s[i + 1]);
  }

  lemma NextDigit(digits: string, c: char)
    requires AllDigits(digits) && IsDigit(c)
    ensures AllDigits(digits + [c]) && NumeralValue(digits + [c]) == 10 * NumeralValue(digits) + (c as int - 48)
    ensures NumeralValue("") == 0
  {
    assert (digits + [c])[..|digits|] == digits;
  }

  lemma FourDigits(s: string, i: nat)
    requires i + 4 <= |s| && AllDigits(s[i..i + 4])
    ensures NumeralValue(s[i..i + 4]) == Four(s, i)
  {
    hide NumeralValue;
    var t := s[i..i + 4];
    assert forall k :: 0 <= k < 4 ==> IsDigit(t[k]);
    assert t == (s[i..i + 2] + [s[i + 2]]) + [s[i + 3]];
    assert IsDigit(t[2]) && IsDigit(t[3]) && t[..2] == s[i..i + 2];
    TwoDigits(s, i);
    NextDigit(s[i..i + 2], s[i + 2]);
    NextDigit(s[i..i + 2] + [s[i + 2]], s[i + 3]);
  }

  /** `dddd-dd-ddTdd:dd:ddZ`. */
  predicate Shaped(s: string) {
    && |s| == 20 && s[4] == '-' && s[7] == '-' && s[10] == 'T' && s[13] == ':' && s[16] == ':' && s[19] == 'Z'
    && forall i :: 0 <= i < 19 && i !in {4, 7, 10, 13, 16} ==> '0' <= s[i] <= '9'
  }

  lemma ShapesAgree(s: string)
    ensures ShapeOk(s) <==> Shaped(s)
  {
    if ShapeOk(s) {
      forall i | 0 <= i < 19 && i !in {4, 7, 10, 13, 16} ensures '0' <= s[i] <= '9' {
        assert i < 4 ==> s[i] == s[0..4][i];
        assert 5 <= i < 7 ==> s[i] == s[5..7][i - 5];
        assert 8 <= i < 10 ==> s[i] == s[8..10][i - 8];
        assert 11 <= i < 13 ==> s[i] == s[11..13][i - 11];
        assert 14 <= i < 16 ==> s[i] == s[14..16][i - 14];
        assert 17 <= i < 19 ==> s[i] == s[17..19][i - 17];
      }
    }
  }

  /** A timestamp is accepted exactly when it has the strict form and names a date of the Gregorian
      calendar and a time of day without leap seconds, and then it is the days counted from
      1 January 1970, at 86400 seconds each, and the seconds of the day. */
  lemma TimestampCounts(s: string)
    ensures ParseUtc(s).Some? <==>
      && Shaped(s) && 1 <= Two(s, 5) <= 12 && 1 <= Two(s, 8) <= DaysInMonth(Four(s, 0), Two(s, 5))
      && Two(s, 11) < 24 && Two(s, 14) < 60 && Two(s, 17) < 60
    ensures ParseUtc(s).Some? ==>
      ParseUtc(s).value == 86400 * CountedDays(Four(s, 0), Two(s, 5), Two(s, 8))
                         + 3600 * Two(s, 11) + 60 * Two(s, 14) + Two(s, 17)
  {
    hide DaysFromCivil, CountedDays, DaysInMonth, NumeralValue, Two, Four, Shaped;
    ShapesAgree(s);
    if ShapeOk(s) {
      FourDigits(s, 0);
      TwoDigits(s, 5);
      TwoDigits(s, 8);
      TwoDigits(s, 11);
      TwoDigits(s, 14);
      TwoDigits(s, 17);
      var t := StampOf(s);
      if StampOk(t) { DaysFromCivilCounts(t.year, t.month, t.day); }
    }
  }

  // ----- order -----

  /** Strings in the order of their characters. */
  predicate Less(a: string, b: string) {
    if a == "" || b == "" then a == "" && b != ""
    else a[0] < b[0] || (a[0] == b[0] && Less(a[1..], b[1..]))
  }

  lemma {:induction false} LessConcat(p: string, q: string, a: string, b: string)
    requires |p| == |q|
    ensures Less(p + a, q + b) <==> Less(p, q) || (p == q && Less(a, b))
    decreases |p|
  {
    if p == "" {
      assert p + a == a && q + b == b;
    } else {
      assert (p + a)[1..] == p[1..] + a && (q + b)[1..] == q[1..] + b;
      LessConcat(p[1..], q[1..], a, b);
      assert p == q <==> p[0] == q[0] && p[1..] == q[1..];
    }
  }

  /** The order is total. */
  lemma {:induction false} LessTotal(a: string, b: string)
    ensures Less(a, b) || Less(b, a) || a == b
    decreases |a|
  {
    if a != "" && b != "" && a[0] == b[0] {
      LessTotal(a[1..], b[1..]);
      assert a == [a[0]] + a[1..] && b == [b[0]] + b[1..];
    }
  }

  /** Digit strings of one width order as their numbers. */
  lemma {:induction false} DigitsOrder(a: string, b: string)
    requires |a| == |b| && AllDigits(a) && AllDigits(b)
    ensures Less(a, b) <==> NumeralValue(a) < NumeralValue(b)
    ensures a == b <==> NumeralValue(a) == NumeralValue(b)
    decreases |a|
  {
    if a != "" {
      var n := |a| - 1;
      DigitsOrder(a[..n], b[..n]);
      assert a == a[..n] + [a[n]] && b == b[..n] + [b[n]];
      LessConcat(a[..n], b[..n], [a[n]], [b[n]]);
      LastDigit(a[n], b[n]);
    }
  }

  lemma LastDigit(c: char, d: char)
    requires IsDigit(c) && IsDigit(d)
    ensures Less([c], [d]) <==> DigitValue(c) < DigitValue(d)
    ensures c == d <==> DigitValue(c) == DigitValue(d)
  {
    assert [c][1..] == "" && [d][1..] == "";
  }

  /** The fields in order of weight. */
  predicate Earlier(t: Stamp, u: Stamp) {
    t.year < u.year || (t.year == u.year &&
    (t.month < u.month || (t.month == u.month &&
    (t.day < u.day || (t.day == u.day &&
    (t.hour < u.hour || (t.hour == u.hour &&
    (t.minute < u.minute || (t.minute == u.minute && t.second < u.second)))))))))
  }

  /** A field, its separator, and the rest. */
  lemma FieldOrder(f: string, g: string, sep: char, a: string, b: string)
    requires |f| == |g| && AllDigits(f) && AllDigits(g)
    ensures Less(f + ([sep] + a), g + ([sep] + b)) <==>
      NumeralValue(f) < NumeralValue(g) || (NumeralValue(f) == NumeralValue(g) && Less(a, b))
  {
    DigitsOrder(f, g);
    LessConcat(f, g, [sep] + a, [sep] + b);
    LessConcat([sep], [sep], a, b);
    assert [sep][1..] == "";
  }

  lemma FieldsOf(s: string)
    requires ShapeOk(s)
    ensures s[17..] == s[17..19] + (['Z'] + "") && s[14..] == s[14..16] + ([':'] + s[17..])
    ensures s[11..] == s[11..13] + ([':'] + s[14..]) && s[8..] == s[8..10] + (['T'] + s[11..])
    ensures s[5..] == s[5..7] + (['-'] + s[8..]) && s == s[0..4] + (['-'] + s[5..])
  {
  }

  lemma TextOrder(a: string, b: string)
    requires ShapeOk(a) && ShapeOk(b)
    ensures Less(a, b) <==> Earlier(StampOf(a), StampOf(b))
  {
    hide NumeralValue, Less;
    FieldsOf(a);
    FieldsOf(b);
    FieldOrder(a[0..4], b[0..4], '-', a[5..], b[5..]);
    FieldOrder(a[5..7], b[5..7], '-', a[8..], b[8..]);
    FieldOrder(a[8..10], b[8..10], 'T', a[11..], b[11..]);
    FieldOrder(a[11..13], b[11..13], ':', a[14..], b[14..]);
    FieldOrder(a[14..16], b[14..16], ':', a[17..], b[17..]);
    FieldOrder(a[17..19], b[17..19], 'Z', "", "");
    NothingLess();
  }

  lemma NothingLess()
    ensures !Less("", "")
  {
  }

  lemma {:induction false} YearStartsGrow(y: int, z: int)
    requires y < z
    ensures YearStart(y) + DaysInYear(y) <= YearStart(z)
    decreases z - y
  {
    hide DaysInYear;
    assert YearStart(y + 1) == YearStart(y) + DaysInYear(y);
    if y + 1 < z {
      YearStartsGrow(y + 1, z);
    }
  }

  lemma {:induction false} MonthStartsGrow(year: int, m: nat, n: nat)
    requires 1 <= m < n <= 13
    ensures DaysBefore(year, m) + DaysInMonth(year, m) <= DaysBefore(year, n)
    decreases n - m
  {
    hide DaysInMonth;
    if m + 1 < n { MonthStartsGrow(year, m, n - 1); }
  }

  lemma DaysGrow(t: Stamp, u: Stamp)
    requires StampOk(t) && StampOk(u)
    requires t.year < u.year || (t.year == u.year && (t.month < u.month || (t.month == u.month && t.day < u.day)))
    ensures CountedDays(t.year, t.month, t.day) < CountedDays(u.year, u.month, u.day)
  {
    hide YearStart, DaysBefore, DaysInMonth;
    MonthStartsGrow(t.year, t.month, 13);
    if t.year < u.year {
      YearStartsGrow(t.year, u.year);
    } else if t.month < u.month {
      MonthStartsGrow(t.year, t.month, u.month);
    }
  }

  lemma SecondsGrow(t: Stamp, u: Stamp)
    requires StampOk(t) && StampOk(u) && Earlier(t, u)
    ensures Seconds(t) < Seconds(u)
  {
    hide DaysFromCivil, CountedDays, DaysInMonth;
    DaysFromCivilCounts(t.year, t.month, t.day);
    DaysFromCivilCounts(u.year, u.month, u.day);
    if t.year == u.year && t.month == u.month && t.day == u.day {
    } else {
      DaysGrow(t, u);
    }
  }

  /** Accepted timestamps order as numbers exactly as they order as strings, and equal numbers are
      equal timestamps. */
  lemma TimestampsOrder(a: string, b: string)
    requires ParseUtc(a).Some? && ParseUtc(b).Some?
    ensures Less(a, b) <==> ParseUtc(a).value < ParseUtc(b).value
    ensures ParseUtc(a) == ParseUtc(b) ==> a == b
  {
    hide Seconds, Less, StampOk, StampOf, ShapeOk;
    var t, u := StampOf(a), StampOf(b);
    TextOrder(a, b);
    TextOrder(b, a);
    LessTotal(a, b);
    if Earlier(t, u) {
      SecondsGrow(t, u);
    } else if Earlier(u, t) {
      SecondsGrow(u, t);
    } else {
      assert t == u;
    }
  }
}
