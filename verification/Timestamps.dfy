/** The fixed-width timestamp text, and why comparing it as text compares
    instants (section 5.1 of RFC 3339, for this one format). */
module Timestamps {
  import opened Text

  /** A UTC clock reading. */
  datatype Reading = Reading(year: nat, month: nat, day: nat, hour: nat, minute: nat, second: nat, micro: nat)

  predicate Leap(y: nat)
  {
    y % 4 == 0 && (y % 100 != 0 || y % 400 == 0)
  }

  function DaysInMonth(y: nat, m: nat): nat
  {
    if m == 2 then (if Leap(y) then 29 else 28)
    else if m in {4, 6, 9, 11} then 30
    else 31
  }

  /** In-range fields, with a four-digit year. */
  predicate Valid(t: Reading)
  {
    && 1000 <= t.year <= 9999 && 1 <= t.month <= 12 && 1 <= t.day <= DaysInMonth(t.year, t.month)
    && t.hour < 24 && t.minute < 60 && t.second < 60 && t.micro < 1000000
  }

  // ----- The instant a reading denotes, in microseconds -----

  /** Days of the proleptic Gregorian calendar before January 1 of year y. */
  function DaysBeforeYear(y: nat): int
    requires y >= 1
  {
    365 * (y - 1) + (y - 1) / 4 - (y - 1) / 100 + (y - 1) / 400
  }

  function DaysBeforeMonth(y: nat, m: nat): nat
    requires m >= 1
    decreases m
  {
    if m == 1 then 0 else DaysBeforeMonth(y, m - 1) + DaysInMonth(y, m - 1)
  }

  function DayNumber(t: Reading): int
    requires Valid(t)
  {
    DaysBeforeYear(t.year) + DaysBeforeMonth(t.year, t.month) + t.day
  }

  function Instant(t: Reading): int
    requires Valid(t)
  {
    (((DayNumber(t) * 24 + t.hour) * 60 + t.minute) * 60 + t.second) * 1000000 + t.micro
  }

  lemma Quotients(w: nat)
    requires w >= 1
    ensures w / 4 - (w - 1) / 4 == if w % 4 == 0 then 1 else 0
    ensures w / 100 - (w - 1) / 100 == if w % 100 == 0 then 1 else 0
    ensures w / 400 - (w - 1) / 400 == if w % 400 == 0 then 1 else 0
  {
  }

  lemma Multiples(w: nat)
    ensures w % 400 == 0 ==> w % 100 == 0
    ensures w % 100 == 0 ==> w % 4 == 0
  {
    assert w % 400 == 0 ==> w == 100 * (4 * (w / 400));
    assert w % 100 == 0 ==> w == 4 * (25 * (w / 100));
  }

  lemma NextYear(w: nat)
    requires w >= 1
    ensures DaysBeforeYear(w + 1) == DaysBeforeYear(w) + if Leap(w) then 366 else 365
  {
    Quotients(w);
    Multiples(w);
  }

  lemma {:induction false} YearsAdvance(y: nat, z: nat)
    requires 1 <= y < z
    ensures DaysBeforeYear(y) + (if Leap(y) then 366 else 365) <= DaysBeforeYear(z)
    decreases z
  {
    NextYear(z - 1);
    if y < z - 1 { YearsAdvance(y, z - 1); }
  }

  lemma {:induction false} MonthsAdvance(y: nat, m: nat, n: nat)
    requires 1 <= m < n
    ensures DaysBeforeMonth(y, m) + DaysInMonth(y, m) <= DaysBeforeMonth(y, n)
    decreases n
  {
    if m < n - 1 { MonthsAdvance(y, m, n - 1); }
  }

  lemma YearLength(y: nat)
    ensures DaysBeforeMonth(y, 12) + 31 == if Leap(y) then 366 else 365
  {
    assert DaysBeforeMonth(y, 4) == DaysBeforeMonth(y, 3) + 31 == DaysBeforeMonth(y, 2) + DaysInMonth(y, 2) + 31;
    assert DaysBeforeMonth(y, 8) == DaysBeforeMonth(y, 7) + 31 == DaysBeforeMonth(y, 6) + 61;
    assert DaysBeforeMonth(y, 6) == DaysBeforeMonth(y, 5) + 31;
    assert DaysBeforeMonth(y, 12) == DaysBeforeMonth(y, 11) + 30 == DaysBeforeMonth(y, 10) + 61;
    assert DaysBeforeMonth(y, 10) == DaysBeforeMonth(y, 9) + 30;
  }

  /** Field by field, most significant first. */
  predicate FieldsBefore(a: Reading, b: Reading)
  {
    a.year < b.year || (a.year == b.year && (
    a.month < b.month || (a.month == b.month && (
    a.day < b.day || (a.day == b.day && (
    a.hour < b.hour || (a.hour == b.hour && (
    a.minute < b.minute || (a.minute == b.minute && (
    a.second < b.second || (a.second == b.second && a.micro < b.micro)))))))))))
  }

  lemma DatesAdvance(a: Reading, b: Reading)
    requires Valid(a) && Valid(b)
    requires a.year < b.year || (a.year == b.year && (a.month < b.month || (a.month == b.month && a.day < b.day)))
    ensures DayNumber(a) < DayNumber(b)
  {
    if a.year < b.year {
      YearsAdvance(a.year, b.year);
      YearLength(a.year);
      if a.month < 12 { MonthsAdvance(a.year, a.month, 12); }
    } else if a.month < b.month {
      MonthsAdvance(a.year, a.month, b.month);
    }
  }

  lemma FieldsBeforeIsEarlier(a: Reading, b: Reading)
    requires Valid(a) && Valid(b) && FieldsBefore(a, b)
    ensures Instant(a) < Instant(b)
  {
    if !(a.year == b.year && a.month == b.month && a.day == b.day) { DatesAdvance(a, b); }
  }

  /** The instant orders readings exactly as their fields do. */
  lemma EarlierIffFieldsBefore(a: Reading, b: Reading)
    requires Valid(a) && Valid(b)
    ensures Instant(a) < Instant(b) <==> FieldsBefore(a, b)
  {
    if FieldsBefore(a, b) {
      FieldsBeforeIsEarlier(a, b);
    } else if a != b {
      FieldsBeforeIsEarlier(b, a);
    }
  }

  // ----- The text -----

  function Digit(n: nat): char
    requires n < 10
  {
    '0' + n as char
  }

  function Power10(w: nat): nat
  {
    if w == 0 then 1 else 10 * Power10(w - 1)
  }

  /** n in decimal, zero-padded to w digits. */
  function Digits(n: nat, w: nat): (s: string)
    ensures |s| == w
    decreases w
  {
    if w == 0 then "" else Digits(n / 10, w - 1) + [Digit(n % 10)]
  }

  function Format(t: Reading): string
  {
    Digits(t.year, 4) + "-" + Digits(t.month, 2) + "-" + Digits(t.day, 2) + "T" +
    Digits(t.hour, 2) + ":" + Digits(t.minute, 2) + ":" + Digits(t.second, 2) + "." + Digits(t.micro, 6) + "Z"
  }

  lemma {:induction false} SamePrefix(p: string, a: string, b: string)
    ensures Less(p + a, p + b) <==> Less(a, b)
  {
    if p == "" {
      assert p + a == a && p + b == b;
    } else {
      assert (p + a)[1..] == p[1..] + a && (p + b)[1..] == p[1..] + b;
      SamePrefix(p[1..], a, b);
    }
  }

  /** A difference inside equally long texts outweighs whatever follows. */
  lemma {:induction false} DecidedEarly(p: string, q: string, a: string, b: string)
    requires |p| == |q| && Less(p, q)
    ensures Less(p + a, q + b)
  {
    assert (p + a)[1..] == p[1..] + a && (q + b)[1..] == q[1..] + b;
    if p[0] == q[0] { DecidedEarly(p[1..], q[1..], a, b); }
  }

  lemma {:induction false} DigitsOrder(m: nat, n: nat, w: nat)
    requires m < n < Power10(w)
    ensures Less(Digits(m, w), Digits(n, w))
    decreases w
  {
    if m / 10 < n / 10 {
      DigitsOrder(m / 10, n / 10, w - 1);
      DecidedEarly(Digits(m / 10, w - 1), Digits(n / 10, w - 1), [Digit(m % 10)], [Digit(n % 10)]);
    } else {
      assert m / 10 == n / 10 && m % 10 < n % 10;
      SamePrefix(Digits(m / 10, w - 1), [Digit(m % 10)], [Digit(n % 10)]);
    }
  }

  /** Two fields of equal width, each followed by the same separator and more. */
  lemma FieldOrder(m: nat, n: nat, w: nat, sep: string, a: string, b: string)
    requires m < Power10(w) && n < Power10(w)
    ensures Less(Digits(m, w) + sep + a, Digits(n, w) + sep + b) <==> m < n || (m == n && Less(a, b))
  {
    var x, y := Digits(m, w) + sep + a, Digits(n, w) + sep + b;
    assert x == Digits(m, w) + (sep + a) && y == Digits(n, w) + (sep + b);
    if m < n {
      DigitsOrder(m, n, w);
      DecidedEarly(Digits(m, w), Digits(n, w), sep + a, sep + b);
    } else if n < m {
      DigitsOrder(n, m, w);
      DecidedEarly(Digits(n, w), Digits(m, w), sep + b, sep + a);
      if Less(x, y) { LessTransitive(x, y, x); LessIrreflexive(x); }
    } else {
      SamePrefix(Digits(m, w), sep + a, sep + b);
      SamePrefix(sep, a, b);
    }
  }

  function TimeText(t: Reading): string
  {
    Digits(t.hour, 2) + ":" + (Digits(t.minute, 2) + ":" +
    (Digits(t.second, 2) + "." + (Digits(t.micro, 6) + "Z" + "")))
  }

  lemma FormatParts(t: Reading)
    ensures Format(t) == Digits(t.year, 4) + "-" + (Digits(t.month, 2) + "-" + (Digits(t.day, 2) + "T" + TimeText(t)))
  {
  }

  lemma TimeOrder(a: Reading, b: Reading)
    requires Valid(a) && Valid(b)
    ensures Less(TimeText(a), TimeText(b)) <==>
              a.hour < b.hour || (a.hour == b.hour && (a.minute < b.minute || (a.minute == b.minute &&
              (a.second < b.second || (a.second == b.second && a.micro < b.micro)))))
  {
    Powers();
    var fa, fb := Digits(a.micro, 6) + "Z" + "", Digits(b.micro, 6) + "Z" + "";
    FieldOrder(a.micro, b.micro, 6, "Z", "", "");
    FieldOrder(a.second, b.second, 2, ".", fa, fb);
    var sa, sb := Digits(a.second, 2) + "." + fa, Digits(b.second, 2) + "." + fb;
    FieldOrder(a.minute, b.minute, 2, ":", sa, sb);
    FieldOrder(a.hour, b.hour, 2, ":", Digits(a.minute, 2) + ":" + sa, Digits(b.minute, 2) + ":" + sb);
  }

  lemma Powers()
    ensures Power10(2) == 100 && Power10(4) == 10000 && Power10(6) == 1000000
  {
    assert Power10(2) == 10 * Power10(1) && Power10(4) == 10 * (10 * Power10(2));
    assert Power10(6) == 10 * (10 * Power10(4));
  }

  lemma TextOrderIsFieldOrder(a: Reading, b: Reading)
    requires Valid(a) && Valid(b)
    ensures Less(Format(a), Format(b)) <==> FieldsBefore(a, b)
  {
    FormatParts(a);
    FormatParts(b);
    Powers();
    TimeOrder(a, b);
    FieldOrder(a.day, b.day, 2, "T", TimeText(a), TimeText(b));
    var da, db := Digits(a.day, 2) + "T" + TimeText(a), Digits(b.day, 2) + "T" + TimeText(b);
    FieldOrder(a.month, b.month, 2, "-", da, db);
    FieldOrder(a.year, b.year, 4, "-", Digits(a.month, 2) + "-" + da, Digits(b.month, 2) + "-" + db);
  }

  /** For readings with four-digit years, text order is time order, and equal
      text means equal instants: what the store's ORDER BY relies on. */
  lemma TextOrderIsTimeOrder(a: Reading, b: Reading)
    requires Valid(a) && Valid(b)
    ensures Less(Format(a), Format(b)) <==> Instant(a) < Instant(b)
    ensures Format(a) == Format(b) <==> Instant(a) == Instant(b)
  {
    TextOrderIsFieldOrder(a, b);
    TextOrderIsFieldOrder(b, a);
    EarlierIffFieldsBefore(a, b);
    EarlierIffFieldsBefore(b, a);
    LessIrreflexive(Format(a));
  }

  // ----- The text, read back -----

  /** The number a decimal text denotes. */
  function NumberOf(s: string): int
  {
    if s == "" then 0 else 10 * NumberOf(s[..|s| - 1]) + (s[|s| - 1] as int - '0' as int)
  }

  predicate Decimal(s: string)
  {
    forall c :: c in s ==> '0' <= c <= '9'
  }

  lemma {:induction false} DigitsDenote(n: nat, w: nat)
    requires n < Power10(w)
    ensures Decimal(Digits(n, w)) && NumberOf(Digits(n, w)) == n
    decreases w
  {
    if w > 0 {
      DigitsDenote(n / 10, w - 1);
      var s := Digits(n, w);
      assert s[..|s| - 1] == Digits(n / 10, w - 1);
    }
  }

  predicate Denotes(s: string, n: nat)
  {
    Decimal(s) && NumberOf(s) == n
  }

  /** s is a, then a separator, then the rest. */
  lemma Cut(s: string, a: string, sep: char, rest: string)
    requires s == a + [sep] + rest
    ensures s[..|a|] == a && s[|a|] == sep && s[|a| + 1..] == rest
  {
  }

  /** Reading a text field by field: year-month-dayThour:minute:second.microZ, each
      number in full width. */
  predicate Reads(s: string, t: Reading)
  {
    && |s| == 27 && s[4] == '-' && s[7] == '-' && s[10] == 'T' && s[13] == ':' && s[16] == ':' && s[19] == '.'
    && s[26] == 'Z'
    && Denotes(s[0..4], t.year) && Denotes(s[5..7], t.month) && Denotes(s[8..10], t.day) && Denotes(s[11..13], t.hour)
    && Denotes(s[14..16], t.minute) && Denotes(s[17..19], t.second) && Denotes(s[20..26], t.micro)
  }

  lemma TimePart(t: Reading, s: string)
    requires Valid(t) && s == TimeText(t)
    ensures |s| == 16 && s[2] == ':' && s[5] == ':' && s[8] == '.' && s[15] == 'Z'
    ensures Denotes(s[..2], t.hour) && Denotes(s[3..5], t.minute) && Denotes(s[6..8], t.second)
    ensures Denotes(s[9..15], t.micro)
  {
    Powers();
    DigitsDenote(t.hour, 2);
    DigitsDenote(t.minute, 2);
    DigitsDenote(t.second, 2);
    DigitsDenote(t.micro, 6);
    var d := Digits(t.micro, 6) + "Z" + "";
    var c := Digits(t.second, 2) + "." + d;
    var b := Digits(t.minute, 2) + ":" + c;
    Cut(s, Digits(t.hour, 2), ':', b);
    Cut(b, Digits(t.minute, 2), ':', c);
    Cut(c, Digits(t.second, 2), '.', d);
    Cut(d, Digits(t.micro, 6), 'Z', "");
    assert s[3..5] == b[..2] && s[6..8] == c[..2] && s[9..15] == d[..6];
  }

  lemma DatePart(t: Reading, s: string)
    requires Valid(t) && s == Format(t)
    ensures |s| == 27 && s[4] == '-' && s[7] == '-' && s[10] == 'T' && s[11..] == TimeText(t)
    ensures Denotes(s[0..4], t.year) && Denotes(s[5..7], t.month) && Denotes(s[8..10], t.day)
  {
    Powers();
    FormatParts(t);
    DigitsDenote(t.year, 4);
    DigitsDenote(t.month, 2);
    DigitsDenote(t.day, 2);
    var c := Digits(t.day, 2) + "T" + TimeText(t);
    var b := Digits(t.month, 2) + "-" + c;
    Cut(s, Digits(t.year, 4), '-', b);
    Cut(b, Digits(t.month, 2), '-', c);
    Cut(c, Digits(t.day, 2), 'T', TimeText(t));
    assert s[0..4] == s[..4] && s[5..7] == b[..2] && s[8..10] == c[..2];
  }

  /** The text of an instant reads back as its fields. */
  lemma FormatReadsBack(t: Reading)
    requires Valid(t)
    ensures Reads(Format(t), t)
  {
    var s := Format(t);
    DatePart(t, s);
    TimePart(t, s[11..]);
    assert s[11..13] == s[11..][..2] && s[14..16] == s[11..][3..5] && s[17..19] == s[11..][6..8];
    assert s[20..26] == s[11..][9..15];
  }
}
