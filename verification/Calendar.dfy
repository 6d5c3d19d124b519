/**
 The logger's clock: Unix seconds to a UTC date and time, and the timestamp text.
 */
module Calendar {
  import opened Text

  datatype DateTime = DateTime(year: nat, month: nat, day: nat, hour: nat, minute: nat, second: nat)

  predicate IsLeap(year: nat) {
    (year % 4 == 0 && year % 100 != 0) || year % 400 == 0
  }

  function YearLength(year: nat): (days: nat)
    ensures days >= 365
  {
    if IsLeap(year) then 366 else 365
  }

  function MonthLengths(year: nat): (months: seq<nat>)
    ensures |months| == 12
  {
    [31, if IsLeap(year) then 29 else 28, 31, 30, 31, 30, 31, 31, 30, 31, 30, 31]
  }

  /** A date and time of the Gregorian calendar, section 5.7 of RFC 3339. */
  predicate Valid(t: DateTime) {
    && 1970 <= t.year && 1 <= t.month <= 12
    && 1 <= t.day <= MonthLengths(t.year)[t.month - 1]
    && t.hour < 24 && t.minute < 60 && t.second < 60
  }

  // ---- the closed-form inverse ---------------------------------------------

  /** Leap days in the years 1 to `year - 1`. */
  function LeapDaysBefore(year: nat): int {
    (year - 1) / 4 - (year - 1) / 100 + (year - 1) / 400
  }

  /** Days from 1970-01-01 to the first day of `year`. */
  function DaysBeforeYear(year: nat): int {
    365 * (year - 1970) + LeapDaysBefore(year) - LeapDaysBefore(1970)
  }

  /** Days of the year before the first of the month; 13 is the whole year. */
  function DaysBeforeMonth(year: nat, month: nat): nat
    requires 1 <= month <= 13
  {
    [0, 31, 59, 90, 120, 151, 181, 212, 243, 273, 304, 334, 365][month - 1]
    + (if IsLeap(year) && month > 2 then 1 else 0)
  }

  function DayNumber(t: DateTime): int
    requires 1 <= t.month <= 12
  {
    DaysBeforeYear(t.year) + DaysBeforeMonth(t.year, t.month) + t.day - 1
  }

  function ToEpoch(t: DateTime): int
    requires 1 <= t.month <= 12
  {
    ((DayNumber(t) * 24 + t.hour) * 60 + t.minute) * 60 + t.second
  }

  lemma CountMultiples4(n: nat)
    requires n >= 1
    ensures n / 4 == (n - 1) / 4 + (if n % 4 == 0 then 1 else 0)
  {
  }

  lemma CountMultiples100(n: nat)
    requires n >= 1
    ensures n / 100 == (n - 1) / 100 + (if n % 100 == 0 then 1 else 0)
  {
  }

  lemma CountMultiples400(n: nat)
    requires n >= 1
    ensures n / 400 == (n - 1) / 400 + (if n % 400 == 0 then 1 else 0)
  {
  }

  lemma CenturiesAreFours(n: nat)
    ensures n % 100 == 0 ==> n % 4 == 0
  {
    var q, r := n / 100, n % 100;
    assert n == 4 * (25 * q) + r;
  }

  lemma CyclesAreCenturies(n: nat)
    ensures n % 400 == 0 ==> n % 100 == 0
  {
    var q, r := n / 400, n % 400;
    assert n == 100 * (4 * q) + r;
  }

  lemma NextYear(year: nat)
    requires year >= 1
    ensures DaysBeforeYear(year + 1) == DaysBeforeYear(year) + YearLength(year)
  {
    CountMultiples4(year);
    CountMultiples100(year);
    CountMultiples400(year);
    CenturiesAreFours(year);
    CyclesAreCenturies(year);
    LeapDaysGrow(year, year / 4, year / 100, year / 400);
  }

  /** The count of leap days from the three counts of multiples. */
  lemma LeapDaysGrow(year: nat, fours: int, centuries: int, cycles: int)
    requires year >= 1 && fours == year / 4 && centuries == year / 100 && cycles == year / 400
    requires fours == (year - 1) / 4 + (if year % 4 == 0 then 1 else 0)
    requires centuries == (year - 1) / 100 + (if year % 100 == 0 then 1 else 0)
    requires cycles == (year - 1) / 400 + (if year % 400 == 0 then 1 else 0)
    requires (year % 100 == 0 ==> year % 4 == 0) && (year % 400 == 0 ==> year % 100 == 0)
    ensures LeapDaysBefore(year + 1) == LeapDaysBefore(year) + (if IsLeap(year) then 1 else 0)
  {
  }

  lemma NextMonth(year: nat, month: nat)
    requires 1 <= month <= 12
    ensures DaysBeforeMonth(year, month + 1) == DaysBeforeMonth(year, month) + MonthLengths(year)[month - 1]
    ensures DaysBeforeMonth(year, 1) == 0 && DaysBeforeMonth(year, 13) == YearLength(year)
  {
  }

  /** A cast to an 8-bit unsigned integer. */
  function AsU8(n: nat): nat {
    n % 0x100
  }

  /** For every number of seconds: a valid date and time, whose closed-form value
      is exactly that number. The casts lose nothing, and the month loop stops at
      a real month. */
  method EpochToDatetime(secs: nat) returns (t: DateTime)
    ensures Valid(t) && ToEpoch(t) == secs
  {
    hide DaysBeforeYear, DaysBeforeMonth, IsLeap, MonthLengths, AsU8, YearLength;
    var sec := AsU8(secs % 60);
    var mins := secs / 60;
    var min := AsU8(mins % 60);
    var hours := mins / 60;
    var hour := AsU8(hours % 24);
    var days := hours / 24;
    CastIsLossless(secs % 60);
    CastIsLossless(mins % 60);
    CastIsLossless(hours % 24);

    var year: nat, remaining: nat := 1970, days;
    EpochYear();
    while true
      invariant year >= 1970
      invariant DaysBeforeYear(year) + remaining == days
      decreases remaining
    {
      var daysInYear := YearLength(year);
      if remaining < daysInYear {
        break;
      }
      NextYear(year);
      remaining, year := remaining - daysInYear, year + 1;
    }

    var months := MonthLengths(year);
    var month := 1;
    NextMonth(year, 1);
    for i := 0 to 12
      invariant month == i + 1
      invariant DaysBeforeYear(year) + DaysBeforeMonth(year, month) + remaining == days
      invariant DaysBeforeMonth(year, month) + remaining < YearLength(year)
    {
      if remaining < months[i] {
        break;
      }
      NextMonth(year, month);
      remaining, month := remaining - months[i], month + 1;
    }
    NextMonth(year, 12);
    assert month <= 12;
    MonthAtMost31(year, month);
    CastIsLossless(month);
    CastIsLossless(remaining + 1);
    t := DateTime(year, AsU8(month), AsU8(remaining + 1), hour, min, sec);
  }

  lemma CastIsLossless(n: nat)
    ensures AsU8(n) == n <==> n < 0x100
  {
  }

  lemma EpochYear()
    ensures DaysBeforeYear(1970) == 0
  {
  }

  lemma MonthAtMost31(year: nat, month: nat)
    requires 1 <= month <= 12
    ensures MonthLengths(year)[month - 1] <= 31
  {
  }

  // ---- order ---------------------------------------------------------------

  /** Lexicographic order on year, month, day, hour, minute, second. */
  predicate Before(a: DateTime, b: DateTime) {
    || a.year < b.year
    || (a.year == b.year &&
        (|| a.month < b.month
         || (a.month == b.month &&
             (|| a.day < b.day
              || (a.day == b.day &&
                  (|| a.hour < b.hour
                   || (a.hour == b.hour &&
                       (|| a.minute < b.minute
                        || (a.minute == b.minute && a.second < b.second)))))))))
  }

  lemma {:induction false} YearsGrow(a: nat, b: nat)
    requires 1 <= a < b
    ensures DaysBeforeYear(a) + YearLength(a) <= DaysBeforeYear(b)
    decreases b
  {
    hide DaysBeforeYear, IsLeap;
    NextYear(b - 1);
    if a < b - 1 {
      YearsGrow(a, b - 1);
    }
  }

  lemma {:induction false} MonthsGrow(year: nat, a: nat, b: nat)
    requires 1 <= a < b <= 13
    ensures DaysBeforeMonth(year, a) + MonthLengths(year)[a - 1] <= DaysBeforeMonth(year, b)
    decreases b
  {
    hide DaysBeforeMonth, MonthLengths, IsLeap;
    NextMonth(year, b - 1);
    if a < b - 1 {
      MonthsGrow(year, a, b - 1);
    }
  }

  lemma DayWithinYear(t: DateTime)
    requires Valid(t)
    ensures 0 <= DayNumber(t) - DaysBeforeYear(t.year) < YearLength(t.year)
  {
    hide MonthLengths, DaysBeforeMonth, DaysBeforeYear, IsLeap;
    NextMonth(t.year, 12);
    MonthsGrow(t.year, t.month, 13);
  }

  /** An earlier date and time has a smaller value. */
  lemma EarlierIsSmaller(a: DateTime, b: DateTime)
    requires Valid(a) && Valid(b) && Before(a, b)
    ensures ToEpoch(a) < ToEpoch(b)
  {
    hide MonthLengths, DaysBeforeMonth, DaysBeforeYear, IsLeap, YearLength;
    if a.year < b.year {
      YearsGrow(a.year, b.year);
      DayWithinYear(a);
      DayWithinYear(b);
      assert DayNumber(a) < DayNumber(b);
    } else if a.month < b.month {
      MonthsGrow(a.year, a.month, b.month);
      assert DayNumber(a) < DayNumber(b);
    }
  }

  /** Valid dates and times are ordered as their values, and no two share one. */
  lemma EpochOrder(a: DateTime, b: DateTime)
    requires Valid(a) && Valid(b)
    ensures ToEpoch(a) < ToEpoch(b) <==> Before(a, b)
    ensures ToEpoch(a) == ToEpoch(b) <==> a == b
  {
    hide ToEpoch, Valid;
    if Before(a, b) {
      EarlierIsSmaller(a, b);
    } else if Before(b, a) {
      EarlierIsSmaller(b, a);
    }
  }

  /** Every valid date and time from 1970 on is recovered: it is the only one the
      conversion can return for its value, and that value is not negative. */
  lemma Recovered(t: DateTime, converted: DateTime)
    requires Valid(t) && Valid(converted)
    ensures ToEpoch(t) >= 0
    ensures ToEpoch(converted) == ToEpoch(t) ==> converted == t
  {
    EpochOrder(t, converted);
    DayWithinYear(t);
    EpochYear();
    if t.year > 1970 {
      YearsGrow(1970, t.year);
    }
  }

  // ---- the timestamp text --------------------------------------------------

  function Zeros(n: nat): (s: string)
    ensures |s| == n && AllDigits(s)
  {
    if n == 0 then "" else "0" + Zeros(n - 1)
  }

  /** Decimal digits, filled with zeros on the left to a minimum width. */
  function Padded(n: nat, width: nat): (s: string)
    ensures AllDigits(s)
    ensures |s| >= width
  {
    var digits := Decimal(n);
    if |digits| >= width then digits else Zeros(width - |digits|) + digits
  }

  function Timestamp(t: DateTime): string {
    Padded(t.year, 4) + ("-" + (Padded(t.month, 2) + ("-" + (Padded(t.day, 2) + ("T"
    + (Padded(t.hour, 2) + (":" + (Padded(t.minute, 2) + (":" + (Padded(t.second, 2) + "Z"))))))))))
  }

  lemma {:induction false} ZerosValue(n: nat, digits: string)
    requires AllDigits(digits)
    ensures Value(Zeros(n) + digits) == Value(digits)
    decreases |digits|, n
  {
    if digits == "" {
      assert Zeros(n) + digits == Zeros(n);
      if n > 0 {
        ZerosSnoc(n - 1);
        ZerosValue(n - 1, "");
        assert Zeros(n)[..n - 1] == Zeros(n - 1) == Zeros(n - 1) + "";
      }
    } else {
      var s := Zeros(n) + digits;
      assert s[..|s| - 1] == Zeros(n) + digits[..|digits| - 1];
      ZerosValue(n, digits[..|digits| - 1]);
    }
  }

  lemma ZerosSnoc(n: nat)
    ensures Zeros(n + 1) == Zeros(n) + "0"
  {
    if n > 0 {
      ZerosSnoc(n - 1);
    }
  }

  lemma PaddedValue(n: nat, width: nat)
    ensures Value(Padded(n, width)) == n
  {
    hide Value, Decimal, Zeros;
    ValueOfDecimal(n);
    if |Decimal(n)| < width {
      ZerosValue(width - |Decimal(n)|, Decimal(n));
    }
  }

  lemma DecimalStep(n: nat)
    ensures |Decimal(n)| == if n < 10 then 1 else |Decimal(n / 10)| + 1
  {
  }

  lemma DecimalLength(n: nat)
    ensures n < 100 ==> |Decimal(n)| <= 2
    ensures |Decimal(n)| <= 4 <==> n < 10000
  {
    hide Decimal;
    var tens := n / 10;
    var hundreds := tens / 10;
    var thousands := hundreds / 10;
    DecimalStep(n);
    DecimalStep(tens);
    DecimalStep(hundreds);
    DecimalStep(thousands);
    assert Decimal(thousands / 10) != "";
    assert n < 10000 <==> thousands < 10;
  }

  /** Two-digit fields are two characters wide, years four up to 9999. */
  lemma FieldWidths(n: nat)
    ensures n < 100 ==> |Padded(n, 2)| == 2
    ensures |Padded(n, 4)| == 4 <==> n < 10000
  {
    hide Decimal, Zeros;
    DecimalLength(n);
  }

  /** Fields of equal width compare as their numbers, then as what follows. */
  lemma FieldOrder(n: nat, m: nat, width: nat, b: string, d: string)
    requires |Padded(n, width)| == |Padded(m, width)|
    ensures LexLess(Padded(n, width) + b, Padded(m, width) + d) <==> n < m || (n == m && LexLess(b, d))
  {
    hide Padded, LexLess;
    LexLessConcat(Padded(n, width), b, Padded(m, width), d);
    LexLessIsNumeric(Padded(n, width), Padded(m, width));
    PaddedValue(n, width);
    PaddedValue(m, width);
  }

  lemma SeparatorOrder(separator: string, b: string, d: string)
    requires |separator| == 1
    ensures LexLess(separator + b, separator + d) <==> LexLess(b, d)
  {
    assert (separator + b)[1..] == b && (separator + d)[1..] == d;
  }

  function TimeText(t: DateTime): string {
    Padded(t.hour, 2) + (":" + (Padded(t.minute, 2) + (":" + (Padded(t.second, 2) + "Z"))))
  }

  lemma TimeTextOrder(a: DateTime, b: DateTime)
    requires Valid(a) && Valid(b)
    ensures LexLess(TimeText(a), TimeText(b))
       <==> a.hour < b.hour || (a.hour == b.hour &&
              (a.minute < b.minute || (a.minute == b.minute && a.second < b.second)))
  {
    hide Padded, LexLess, MonthLengths;
    FieldWidths(a.hour); FieldWidths(b.hour);
    FieldWidths(a.minute); FieldWidths(b.minute);
    FieldWidths(a.second); FieldWidths(b.second);
    var secondA, secondB := Padded(a.second, 2) + "Z", Padded(b.second, 2) + "Z";
    FieldOrder(a.second, b.second, 2, "Z", "Z");
    LexLessIrreflexive("Z");
    SeparatorOrder(":", secondA, secondB);
    FieldOrder(a.minute, b.minute, 2, ":" + secondA, ":" + secondB);
    var minuteA, minuteB := Padded(a.minute, 2) + (":" + secondA), Padded(b.minute, 2) + (":" + secondB);
    SeparatorOrder(":", minuteA, minuteB);
    FieldOrder(a.hour, b.hour, 2, ":" + minuteA, ":" + minuteB);
  }

  lemma {:induction false} LexLessIrreflexive(s: string)
    ensures !LexLess(s, s)
  {
    if s != "" {
      LexLessIrreflexive(s[1..]);
    }
  }

  /** Years written with the same number of digits: the order of the texts is the
      order of the times. */
  lemma SameWidthOrder(a: DateTime, b: DateTime)
    requires Valid(a) && Valid(b) && |Padded(a.year, 4)| == |Padded(b.year, 4)|
    ensures LexLess(Timestamp(a), Timestamp(b)) <==> ToEpoch(a) < ToEpoch(b)
  {
    hide Padded, LexLess, ToEpoch, MonthLengths, TimeText;
    EpochOrder(a, b);
    TimeTextOrder(a, b);
    TimestampSplit(a);
    TimestampSplit(b);
    DateTextOrder(a, b, TimeText(a), TimeText(b));
  }

  /** For any two dates and times, the order of the texts is the order of the
      times exactly when the order of the years' texts is the order of the years. */
  lemma TimestampOrderExactlyWhen(a: DateTime, b: DateTime)
    requires Valid(a) && Valid(b)
    ensures (LexLess(Timestamp(a), Timestamp(b)) <==> ToEpoch(a) < ToEpoch(b))
       <==> (LexLess(Padded(a.year, 4), Padded(b.year, 4)) <==> a.year < b.year)
  {
    hide Padded, LexLess, ToEpoch, MonthLengths;
    if a.year == b.year {
      SameWidthOrder(a, b);
      LexLessIrreflexive(Padded(a.year, 4));
    } else {
      EpochOrder(a, b);
      PaddedValue(a.year, 4);
      PaddedValue(b.year, 4);
      var restA, restB := Timestamp(a)[|Padded(a.year, 4)| + 1..], Timestamp(b)[|Padded(b.year, 4)| + 1..];
      assert Timestamp(a) == Padded(a.year, 4) + ("-" + restA) && Timestamp(b) == Padded(b.year, 4) + ("-" + restB);
      DigitsDecide(Padded(a.year, 4), restA, Padded(b.year, 4), restB);
    }
  }

  /** Different digit strings decide the order of what starts with them and goes
      on with a hyphen, which sorts before every digit. */
  lemma {:induction false} DigitsDecide(a: string, b: string, c: string, d: string)
    requires AllDigits(a) && AllDigits(c) && a != c
    ensures LexLess(a + ("-" + b), c + ("-" + d)) <==> LexLess(a, c)
  {
    var left, right := a + ("-" + b), c + ("-" + d);
    if a == "" {
      assert left == "-" + b && c[0] in c;
    } else if c == "" {
      assert right == "-" + d && a[0] in a;
    } else if a[0] == c[0] {
      assert left[1..] == a[1..] + ("-" + b) && right[1..] == c[1..] + ("-" + d);
      assert a == [a[0]] + a[1..] && c == [c[0]] + c[1..];
      DigitsDecide(a[1..], b, c[1..], d);
    }
  }

  /** Up to the year 9999 the text has a fixed width, and the order of the texts
      is the order of the times. */
  lemma TimestampOrder(a: DateTime, b: DateTime)
    requires Valid(a) && Valid(b) && a.year <= 9999 && b.year <= 9999
    ensures |Timestamp(a)| == 20
    ensures LexLess(Timestamp(a), Timestamp(b)) <==> ToEpoch(a) < ToEpoch(b)
  {
    hide Padded, LexLess, ToEpoch, MonthLengths, Timestamp;
    TimestampSplit(a);
    FieldWidths(a.year);
    FieldWidths(b.year);
    SameWidthOrder(a, b);
  }

  /** The years up to which all texts are in the order of their times. */
  lemma TimestampOrderUpTo(lastYear: nat)
    requires lastYear >= 1970
    ensures (forall a, b :: Valid(a) && Valid(b) && a.year <= lastYear && b.year <= lastYear ==>
               (LexLess(Timestamp(a), Timestamp(b)) <==> ToEpoch(a) < ToEpoch(b)))
       <==> lastYear <= 9999
  {
    hide Timestamp, LexLess, ToEpoch, MonthLengths;
    if lastYear <= 9999 {
      forall a, b | Valid(a) && Valid(b) && a.year <= lastYear && b.year <= lastYear
        ensures LexLess(Timestamp(a), Timestamp(b)) <==> ToEpoch(a) < ToEpoch(b)
      {
        TimestampOrder(a, b);
      }
    } else {
      TimestampOrderEndsWith9999();
      LexLessAsymmetric(Timestamp(DateTime(9999, 12, 31, 23, 59, 59)), Timestamp(DateTime(10000, 1, 1, 0, 0, 0)));
    }
  }

  lemma {:induction false} LexLessAsymmetric(a: string, b: string)
    ensures !(LexLess(a, b) && LexLess(b, a))
    decreases |a|
  {
    if a != "" && b != "" {
      LexLessAsymmetric(a[1..], b[1..]);
    }
  }

  /** Digits standing at a position of a text and reading as a number. */
  predicate Reads(text: string, from: nat, to: nat, n: nat) {
    from <= to <= |text| && AllDigits(text[from..to]) && Value(text[from..to]) == n
  }

  lemma ReadsAt(before: string, n: nat, width: nat, after: string)
    ensures Reads(before + (Padded(n, width) + after), |before|, |before| + |Padded(n, width)|, n)
  {
    hide Padded, Value;
    PaddedValue(n, width);
    var text := before + (Padded(n, width) + after);
    assert text[|before|..|before| + |Padded(n, width)|] == Padded(n, width);
  }

  /** Up to the year 9999 the timestamp has the form YYYY-MM-DDThh:mm:ssZ of
      section 5.6 of RFC 3339, and every field is read back from its own place. */
  lemma TimestampFields(t: DateTime)
    requires Valid(t) && t.year <= 9999
    ensures var s := Timestamp(t);
            && |s| == 20
            && Reads(s, 0, 4, t.year) && Reads(s, 5, 7, t.month) && Reads(s, 8, 10, t.day)
            && Reads(s, 11, 13, t.hour) && Reads(s, 14, 16, t.minute) && Reads(s, 17, 19, t.second)
            && s[4] == s[7] == '-' && s[10] == 'T' && s[13] == s[16] == ':' && s[19] == 'Z'
  {
    hide Padded, MonthLengths, Reads;
    MonthAtMost31(t.year, t.month);
    FieldWidths(t.year); FieldWidths(t.month); FieldWidths(t.day);
    FieldWidths(t.hour); FieldWidths(t.minute); FieldWidths(t.second);
    var year, month, day := Padded(t.year, 4), Padded(t.month, 2), Padded(t.day, 2);
    var hour, minute, second := Padded(t.hour, 2), Padded(t.minute, 2), Padded(t.second, 2);
    FieldsInPlace(t, year, month, day, hour, minute, second);
    ReadsAt("", t.year, 4, "-" + month + "-" + day + "T" + hour + ":" + minute + ":" + second + "Z");
    ReadsAt(year + "-", t.month, 2, "-" + day + "T" + hour + ":" + minute + ":" + second + "Z");
    ReadsAt(year + "-" + month + "-", t.day, 2, "T" + hour + ":" + minute + ":" + second + "Z");
    ReadsAt(year + "-" + month + "-" + day + "T", t.hour, 2, ":" + minute + ":" + second + "Z");
    ReadsAt(year + "-" + month + "-" + day + "T" + hour + ":", t.minute, 2, ":" + second + "Z");
    ReadsAt(year + "-" + month + "-" + day + "T" + hour + ":" + minute + ":", t.second, 2, "Z");
  }

  lemma FieldsInPlace(
    t: DateTime, year: string, month: string, day: string, hour: string, minute: string, second: string)
    requires year == Padded(t.year, 4) && month == Padded(t.month, 2) && day == Padded(t.day, 2)
    requires hour == Padded(t.hour, 2) && minute == Padded(t.minute, 2) && second == Padded(t.second, 2)
    requires |year| == 4 && |month| == |day| == |hour| == |minute| == |second| == 2
    ensures var s := Timestamp(t);
            && |s| == 20
            && s == "" + (year + ("-" + month + "-" + day + "T" + hour + ":" + minute + ":" + second + "Z"))
            && s == year + "-" + (month + ("-" + day + "T" + hour + ":" + minute + ":" + second + "Z"))
            && s == year + "-" + month + "-" + (day + ("T" + hour + ":" + minute + ":" + second + "Z"))
            && s == year + "-" + month + "-" + day + "T" + (hour + (":" + minute + ":" + second + "Z"))
            && s == year + "-" + month + "-" + day + "T" + hour + ":" + (minute + (":" + second + "Z"))
            && s == year + "-" + month + "-" + day + "T" + hour + ":" + minute + ":" + (second + "Z")
            && s[4] == s[7] == '-' && s[10] == 'T' && s[13] == s[16] == ':' && s[19] == 'Z'
  {
    hide Padded;
  }

  function DateText(t: DateTime, time: string): string {
    Padded(t.year, 4) + ("-" + (Padded(t.month, 2) + ("-" + (Padded(t.day, 2) + ("T" + time)))))
  }

  lemma TimestampSplit(t: DateTime)
    ensures Timestamp(t) == DateText(t, TimeText(t))
    ensures Valid(t) && t.year <= 9999 ==> |Timestamp(t)| == 20
  {
    hide Padded, MonthLengths;
    FieldWidths(t.year); FieldWidths(t.month); FieldWidths(t.hour);
    FieldWidths(t.minute); FieldWidths(t.second);
    if Valid(t) {
      MonthAtMost31(t.year, t.month);
    }
    FieldWidths(t.day);
  }

  lemma DateTextOrder(a: DateTime, b: DateTime, timeA: string, timeB: string)
    requires Valid(a) && Valid(b) && |Padded(a.year, 4)| == |Padded(b.year, 4)|
    ensures LexLess(DateText(a, timeA), DateText(b, timeB))
       <==> a.year < b.year || (a.year == b.year &&
              (a.month < b.month || (a.month == b.month &&
                 (a.day < b.day || (a.day == b.day && LexLess(timeA, timeB))))))
  {
    hide Padded, LexLess, MonthLengths;
    FieldWidths(a.month); FieldWidths(b.month);
    MonthAtMost31(a.year, a.month); MonthAtMost31(b.year, b.month);
    FieldWidths(a.day); FieldWidths(b.day);
    SeparatorOrder("T", timeA, timeB);
    FieldOrder(a.day, b.day, 2, "T" + timeA, "T" + timeB);
    var dayA, dayB := Padded(a.day, 2) + ("T" + timeA), Padded(b.day, 2) + ("T" + timeB);
    SeparatorOrder("-", dayA, dayB);
    FieldOrder(a.month, b.month, 2, "-" + dayA, "-" + dayB);
    var monthA, monthB := Padded(a.month, 2) + ("-" + dayA), Padded(b.month, 2) + ("-" + dayB);
    SeparatorOrder("-", monthA, monthB);
    FieldOrder(a.year, b.year, 4, "-" + monthA, "-" + monthB);
  }

  /** The year 10000 breaks the order: its text has one more digit. */
  lemma TimestampOrderEndsWith9999()
    ensures var last, next := DateTime(9999, 12, 31, 23, 59, 59), DateTime(10000, 1, 1, 0, 0, 0);
            && Valid(last) && Valid(next) && ToEpoch(last) < ToEpoch(next)
            && LexLess(Timestamp(next), Timestamp(last))
  {
    var last, next := DateTime(9999, 12, 31, 23, 59, 59), DateTime(10000, 1, 1, 0, 0, 0);
    EpochOrder(last, next);
    hide Padded, ToEpoch;
    FirstDigit(9999, 9);
    FirstDigit(10000, 1);
    assert Timestamp(next)[0] == Padded(10000, 4)[0] && Timestamp(last)[0] == Padded(9999, 4)[0];
  }

  lemma FirstDigit(n: nat, digit: nat)
    requires (n == 9999 && digit == 9) || (n == 10000 && digit == 1)
    ensures Padded(n, 4)[0] == DigitChar(digit)
  {
    hide Decimal;
    DecimalHead(n);
    DecimalHead(n / 10);
    DecimalHead(n / 100);
    DecimalHead(n / 1000);
    DecimalHead(n / 10000);
    DecimalLength(n);
    DecimalStep(n);
    DecimalStep(n / 10);
    DecimalStep(n / 100);
    DecimalStep(n / 1000);
  }

  lemma DecimalHead(n: nat)
    ensures Decimal(n)[0] == if n < 10 then DigitChar(n) else Decimal(n / 10)[0]
  {
  }
}
