/** Naive timestamps and their ISO text.  Filters, retention and last-seen all compare the
    text (backend/event_index.py, backend/event_log.py, backend/network.py); this module
    shows when that is the same as comparing instants. */
module IsoTime {
  import opened Lex

  datatype DateTime = DateTime(year: nat, month: nat, day: nat,
                               hour: nat, minute: nat, second: nat, micro: nat)

  predicate Leap(y: nat) {
    y % 4 == 0 && (y % 100 != 0 || y % 400 == 0)
  }

  function DaysInMonth(y: nat, m: nat): nat {
    if m == 2 then (if Leap(y) then 29 else 28)
    else if m == 4 || m == 6 || m == 9 || m == 11 then 30
    else 31
  }

  /** A calendar date and time of day with a four-digit year. */
  predicate Valid(t: DateTime) {
    && 1000 <= t.year <= 9999
    && 1 <= t.month <= 12
    && 1 <= t.day <= DaysInMonth(t.year, t.month)
    && t.hour < 24 && t.minute < 60 && t.second < 60 && t.micro < 1_000_000
  }

  function DaysBeforeYear(y: nat): nat
    requires 1 <= y
  {
    (y - 1) * 365 + (y - 1) / 4 - (y - 1) / 100 + (y - 1) / 400
  }

  function DaysBeforeMonth(y: nat, m: nat): nat
    requires 1 <= m
  {
    if m == 1 then 0 else DaysBeforeMonth(y, m - 1) + DaysInMonth(y, m - 1)
  }

  /** Days since 0001-01-01 in the proleptic Gregorian calendar. */
  function DayNumber(t: DateTime): nat
    requires Valid(t)
  {
    DaysBeforeYear(t.year) + DaysBeforeMonth(t.year, t.month) + t.day - 1
  }

  function SecondsOf(hour: nat, minute: nat, second: nat): nat {
    hour * 3600 + minute * 60 + second
  }

  function SecondOfDay(t: DateTime): nat {
    SecondsOf(t.hour, t.minute, t.second)
  }

  /** The instant in microseconds. */
  function Micros(t: DateTime): nat
    requires Valid(t)
  {
    (DayNumber(t) * 86_400 + SecondOfDay(t)) * 1_000_000 + t.micro
  }

  /** strftime("%Y-%m-%d"), which is also the first ten characters of the ISO text. */
  function DayText(t: DateTime): (s: string)
    requires Valid(t)
  {
    PowValues();
    Pad(t.year, 4) + ("-" + (Pad(t.month, 2) + ("-" + Pad(t.day, 2))))
  }

  function ClockText(t: DateTime): string
    requires Valid(t)
  {
    PowValues();
    "T" + (Pad(t.hour, 2) + (":" + (Pad(t.minute, 2) + (":" + Pad(t.second, 2)))))
  }

  /** isoformat() drops the fraction when it is zero and prints six digits otherwise. */
  function FractionText(t: DateTime): string
    requires Valid(t)
  {
    PowValues();
    if t.micro == 0 then "" else "." + Pad(t.micro, 6)
  }

  function Iso(t: DateTime): string
    requires Valid(t)
  {
    DayText(t) + (ClockText(t) + FractionText(t))
  }

  lemma PowValues()
    ensures Pow10(2) == 100 && Pow10(4) == 10_000 && Pow10(6) == 1_000_000
  {
    assert Pow10(1) == 10 && Pow10(3) == 1000 && Pow10(5) == 100_000;
  }

  // ---- the calendar is monotone ----

  lemma {:induction false} YearsGrow(y: nat, z: nat)
    requires 1 <= y < z
    ensures DaysBeforeYear(y) + 365 + (if Leap(y) then 1 else 0) <= DaysBeforeYear(z)
  {
    if z == y + 1 {
      NextYear(y);
    } else {
      YearsGrow(y, z - 1);
      NextYear(z - 1);
    }
  }

  lemma NextYear(y: nat)
    requires 1 <= y
    ensures DaysBeforeYear(y + 1) == DaysBeforeYear(y) + 365 + if Leap(y) then 1 else 0
  {
    Fours(y);
    Hundreds(y);
    FourHundreds(y);
    MultiplesNest(y);
  }

  lemma Fours(y: nat)
    requires 1 <= y
    ensures y / 4 == (y - 1) / 4 + if y % 4 == 0 then 1 else 0
  {
  }

  lemma Hundreds(y: nat)
    requires 1 <= y
    ensures y / 100 == (y - 1) / 100 + if y % 100 == 0 then 1 else 0
  {
  }

  lemma FourHundreds(y: nat)
    requires 1 <= y
    ensures y / 400 == (y - 1) / 400 + if y % 400 == 0 then 1 else 0
  {
  }

  lemma MultiplesNest(y: nat)
    ensures y % 400 == 0 ==> y % 100 == 0
    ensures y % 100 == 0 ==> y % 4 == 0
  {
    if y % 400 == 0 {
      HundredTimes(4 * (y / 400));
    }
    if y % 100 == 0 {
      FourTimes(25 * (y / 100));
    }
  }

  lemma HundredTimes(k: nat)
    ensures (100 * k) % 100 == 0
  {
  }

  lemma FourTimes(k: nat)
    ensures (4 * k) % 4 == 0
  {
  }

  lemma {:induction false} MonthsGrow(y: nat, m: nat, n: nat)
    requires 1 <= m < n
    ensures DaysBeforeMonth(y, m) + DaysInMonth(y, m) <= DaysBeforeMonth(y, n)
  {
    if n == m + 1 {
    } else {
      MonthsGrow(y, m, n - 1);
    }
  }

  lemma DayFitsYear(t: DateTime)
    requires Valid(t)
    ensures DaysBeforeMonth(t.year, t.month) + t.day <= 365 + (if Leap(t.year) then 1 else 0)
  {
    var y := t.year;
    assert DaysBeforeMonth(y, 4) == DaysBeforeMonth(y, 3) + 31 == DaysBeforeMonth(y, 2) + DaysInMonth(y, 2) + 31;
    assert DaysBeforeMonth(y, 7) == DaysBeforeMonth(y, 6) + 30 == DaysBeforeMonth(y, 5) + 61 == DaysBeforeMonth(y, 4) + 91;
    assert DaysBeforeMonth(y, 10) == DaysBeforeMonth(y, 9) + 30 == DaysBeforeMonth(y, 8) + 61 == DaysBeforeMonth(y, 7) + 92;
    assert DaysBeforeMonth(y, 12) == DaysBeforeMonth(y, 11) + 30 == DaysBeforeMonth(y, 10) + 61;
    if t.month < 12 {
      MonthsGrow(y, t.month, 12);
    }
  }

  predicate DateBefore(a: DateTime, b: DateTime) {
    a.year < b.year || (a.year == b.year && (a.month < b.month || (a.month == b.month && a.day < b.day)))
  }

  predicate SameDate(a: DateTime, b: DateTime) {
    a.year == b.year && a.month == b.month && a.day == b.day
  }

  lemma DateOrderIsDayOrder(a: DateTime, b: DateTime)
    requires Valid(a) && Valid(b) && DateBefore(a, b)
    ensures DayNumber(a) < DayNumber(b)
  {
    if a.year < b.year {
      YearsGrow(a.year, b.year);
      DayFitsYear(a);
    } else if a.month < b.month {
      MonthsGrow(a.year, a.month, b.month);
    }
  }

  // ---- the text is monotone ----

  lemma DayTextOrder(a: DateTime, b: DateTime)
    requires Valid(a) && Valid(b)
    ensures |DayText(a)| == |DayText(b)| == 10
    ensures Less(DayText(a), DayText(b)) <==> DateBefore(a, b)
    ensures DayText(a) == DayText(b) <==> SameDate(a, b)
  {
    PowValues();
    var ma, mb := "-" + Pad(a.day, 2), "-" + Pad(b.day, 2);
    var ya, yb := "-" + (Pad(a.month, 2) + ma), "-" + (Pad(b.month, 2) + mb);
    LessOfAppend(Pad(a.year, 4), ya, Pad(b.year, 4), yb);
    LessOfAppend("-", Pad(a.month, 2) + ma, "-", Pad(b.month, 2) + mb);
    LessOfAppend(Pad(a.month, 2), ma, Pad(b.month, 2), mb);
    LessOfAppend("-", Pad(a.day, 2), "-", Pad(b.day, 2));
    PadOrder(a.year, b.year, 4);
    PadOrder(a.month, b.month, 2);
    PadOrder(a.day, b.day, 2);
    SplitEqual(Pad(a.year, 4), ya, Pad(b.year, 4), yb);
    SplitEqual("-", Pad(a.month, 2) + ma, "-", Pad(b.month, 2) + mb);
    SplitEqual(Pad(a.month, 2), ma, Pad(b.month, 2), mb);
    SplitEqual("-", Pad(a.day, 2), "-", Pad(b.day, 2));
  }

  lemma SplitEqual(a: string, b: string, c: string, d: string)
    requires |a| == |c|
    ensures a + b == c + d <==> a == c && b == d
  {
    assert (a + b)[..|a|] == a && (a + b)[|a|..] == b;
    assert (c + d)[..|c|] == c && (c + d)[|c|..] == d;
  }

  lemma ClockTextOrder(a: DateTime, b: DateTime)
    requires Valid(a) && Valid(b)
    ensures |ClockText(a)| == |ClockText(b)| == 9
    ensures Less(ClockText(a), ClockText(b)) <==> SecondOfDay(a) < SecondOfDay(b)
    ensures ClockText(a) == ClockText(b) <==> SecondOfDay(a) == SecondOfDay(b)
  {
    PowValues();
    var sa, sb := ":" + Pad(a.second, 2), ":" + Pad(b.second, 2);
    var ma, mb := ":" + (Pad(a.minute, 2) + sa), ":" + (Pad(b.minute, 2) + sb);
    LessOfAppend("T", Pad(a.hour, 2) + ma, "T", Pad(b.hour, 2) + mb);
    LessOfAppend(Pad(a.hour, 2), ma, Pad(b.hour, 2), mb);
    LessOfAppend(":", Pad(a.minute, 2) + sa, ":", Pad(b.minute, 2) + sb);
    LessOfAppend(Pad(a.minute, 2), sa, Pad(b.minute, 2), sb);
    LessOfAppend(":", Pad(a.second, 2), ":", Pad(b.second, 2));
    PadOrder(a.hour, b.hour, 2);
    PadOrder(a.minute, b.minute, 2);
    PadOrder(a.second, b.second, 2);
    SplitEqual("T", Pad(a.hour, 2) + ma, "T", Pad(b.hour, 2) + mb);
    SplitEqual(Pad(a.hour, 2), ma, Pad(b.hour, 2), mb);
    SplitEqual(":", Pad(a.minute, 2) + sa, ":", Pad(b.minute, 2) + sb);
    SplitEqual(Pad(a.minute, 2), sa, Pad(b.minute, 2), sb);
    SplitEqual(":", Pad(a.second, 2), ":", Pad(b.second, 2));
  }

  lemma FractionTextOrder(a: DateTime, b: DateTime)
    requires Valid(a) && Valid(b)
    ensures Less(FractionText(a), FractionText(b)) <==> a.micro < b.micro
    ensures FractionText(a) == FractionText(b) <==> a.micro == b.micro
  {
    PowValues();
    PadOrder(a.micro, b.micro, 6);
    LessOfAppend(".", Pad(a.micro, 6), ".", Pad(b.micro, 6));
    SplitEqual(".", Pad(a.micro, 6), ".", Pad(b.micro, 6));
  }

  /** Date first, then the second of the day, then the fraction. */
  predicate FieldsBefore(a: DateTime, b: DateTime) {
    DateBefore(a, b) ||
    (SameDate(a, b) && (SecondOfDay(a) < SecondOfDay(b) || (SecondOfDay(a) == SecondOfDay(b) && a.micro < b.micro)))
  }

  lemma TextOrderIsFieldOrder(a: DateTime, b: DateTime)
    requires Valid(a) && Valid(b)
    ensures Less(Iso(a), Iso(b)) <==> FieldsBefore(a, b)
  {
    DayTextOrder(a, b);
    ClockTextOrder(a, b);
    FractionTextOrder(a, b);
    LessOfAppend(DayText(a), ClockText(a) + FractionText(a), DayText(b), ClockText(b) + FractionText(b));
    LessOfAppend(ClockText(a), FractionText(a), ClockText(b), FractionText(b));
  }

  lemma FieldOrderIsTimeOrder(a: DateTime, b: DateTime)
    requires Valid(a) && Valid(b)
    ensures FieldsBefore(a, b) ==> Micros(a) < Micros(b)
    ensures FieldsBefore(a, b) || FieldsBefore(b, a) || a == b
  {
    if DateBefore(a, b) {
      DateOrderIsDayOrder(a, b);
    }
    SameSecond(a, b);
  }

  lemma SameSecond(a: DateTime, b: DateTime)
    requires Valid(a) && Valid(b)
    ensures SecondOfDay(a) == SecondOfDay(b) ==> a.hour == b.hour && a.minute == b.minute && a.second == b.second
  {
  }

  /** String order is time order, although fractional and whole-second texts are mixed. */
  lemma IsoOrderIsTimeOrder(a: DateTime, b: DateTime)
    requires Valid(a) && Valid(b)
    ensures Less(Iso(a), Iso(b)) <==> Micros(a) < Micros(b)
    ensures Iso(a) == Iso(b) <==> Micros(a) == Micros(b)
    ensures Iso(a) == Iso(b) <==> a == b
  {
    TextOrderIsFieldOrder(a, b);
    TextOrderIsFieldOrder(b, a);
    FieldOrderIsTimeOrder(a, b);
    FieldOrderIsTimeOrder(b, a);
    LessIsStrictOrder(Iso(a), Iso(b), Iso(a));
  }

  /** The text's first ten characters are the date, so a day range on the text is a range of dates. */
  lemma DayPrefix(t: DateTime)
    requires Valid(t)
    ensures |Iso(t)| >= 19 && Iso(t)[..10] == DayText(t)
    ensures IsDayText(DayText(t))
  {
    DayTextOrder(t, t);
    ClockTextOrder(t, t);
  }

  /** The shape that both the migration and the file-name check accept as a day. */
  predicate IsDayText(day: string) {
    && |day| == 10
    && day[4] == '-' && day[7] == '-'
    && (forall i | 0 <= i < 4 :: IsDigit(day[i]))
    && IsDigit(day[5]) && IsDigit(day[6]) && IsDigit(day[8]) && IsDigit(day[9])
  }
}
