/**
 * Python's `datetime.date` in the proleptic Gregorian calendar: validity,
 * the day after, ordinals (so that `end - start` counts days) and the
 * `'%Y-%m'` month key.
 */
module Calendar {
  import opened Wrappers
  import opened Text

  datatype Date = Date(year: int, month: int, day: int)

  predicate IsLeap(y: int) { y % 4 == 0 && (y % 100 != 0 || y % 400 == 0) }

  function DaysInMonth(y: int, m: int): (n: int)
    requires 1 <= m <= 12
    ensures 28 <= n <= 31
    ensures n == 29 <==> m == 2 && IsLeap(y)
  {
    if m == 2 then (if IsLeap(y) then 29 else 28)
    else if m == 4 || m == 6 || m == 9 || m == 11 then 30
    else 31
  }

  function DaysInYear(y: int): int { if IsLeap(y) then 366 else 365 }

  /** A day that exists in some year of the calendar. */
  predicate WellFormed(d: Date) {
    d.year >= 1 && 1 <= d.month <= 12 && 1 <= d.day <= DaysInMonth(d.year, d.month)
  }

  /** `date(y, m, d)` does not raise: Python's years run from 1 to 9999. */
  predicate IsValid(d: Date) { WellFormed(d) && d.year <= 9999 }

  /** Python `a < b` on dates. */
  predicate Before(a: Date, b: Date) {
    a.year < b.year
    || (a.year == b.year && a.month < b.month)
    || (a.year == b.year && a.month == b.month && a.day < b.day)
  }

  /** Python `a <= b` on dates. */
  predicate NotAfter(a: Date, b: Date) { a == b || Before(a, b) }

  function LastDayOfMonth(y: int, m: int): (d: Date)
    requires y >= 1 && 1 <= m <= 12
    ensures WellFormed(d) && d.year == y && d.month == m
  {
    Date(y, m, DaysInMonth(y, m))
  }

  /** `d + timedelta(days=1)`. */
  function NextDay(d: Date): (r: Date)
    requires WellFormed(d)
    ensures WellFormed(r) && Before(d, r)
  {
    if d.day < DaysInMonth(d.year, d.month) then Date(d.year, d.month, d.day + 1)
    else if d.month < 12 then Date(d.year, d.month + 1, 1)
    else Date(d.year + 1, 1, 1)
  }

  /** `d - timedelta(days=1)`; the day before 0001-01-01 does not exist. */
  function PrevDay(d: Date): (r: Option<Date>)
    requires WellFormed(d)
    ensures r.None? <==> d == Date(1, 1, 1)
    ensures r.Some? ==> WellFormed(r.value) && NextDay(r.value) == d
  {
    if d.day > 1 then Some(Date(d.year, d.month, d.day - 1))
    else if d.month > 1 then Some(LastDayOfMonth(d.year, d.month - 1))
    else if d.year > 1 then Some(LastDayOfMonth(d.year - 1, 12))
    else None
  }

  // --------------------------------------------------------------- ordinals

  function DaysBeforeYear(y: int): int
    decreases y
  {
    if y <= 1 then 0 else DaysBeforeYear(y - 1) + DaysInYear(y - 1)
  }

  function DaysBeforeMonth(y: int, m: int): int
    requires 1 <= m <= 12
  {
    var cumulative := [0, 31, 59, 90, 120, 151, 181, 212, 243, 273, 304, 334];
    cumulative[m - 1] + (if m > 2 && IsLeap(y) then 1 else 0)
  }

  /** `d.toordinal()`: 0001-01-01 is day 1. */
  function Ordinal(d: Date): int
    requires WellFormed(d)
  {
    DaysBeforeYear(d.year) + DaysBeforeMonth(d.year, d.month) + d.day
  }

  lemma MonthEnds(y: int, m: int)
    requires 1 <= m <= 12
    ensures m < 12 ==> DaysBeforeMonth(y, m) + DaysInMonth(y, m) == DaysBeforeMonth(y, m + 1)
    ensures m == 12 ==> DaysBeforeMonth(y, m) + DaysInMonth(y, m) == DaysInYear(y)
  {
  }

  /** The day after is the next ordinal. */
  lemma OrdinalNextDay(d: Date)
    requires WellFormed(d)
    ensures Ordinal(NextDay(d)) == Ordinal(d) + 1
  {
    MonthEnds(d.year, d.month);
  }

  lemma {:induction false} DaysBeforeYearMonotone(y: int, z: int)
    requires 1 <= y < z
    ensures DaysBeforeYear(y) + DaysInYear(y) <= DaysBeforeYear(z)
    decreases z
  {
    if y + 1 < z {
      DaysBeforeYearMonotone(y, z - 1);
    }
  }

  lemma DaysBeforeMonthMonotone(y: int, m: int, n: int)
    requires 1 <= m < n <= 12
    ensures DaysBeforeMonth(y, m) + DaysInMonth(y, m) <= DaysBeforeMonth(y, n)
  {
  }

  /** Ordinals order dates as `<` does. */
  lemma OrdinalBefore(a: Date, b: Date)
    requires WellFormed(a) && WellFormed(b)
    ensures Before(a, b) <==> Ordinal(a) < Ordinal(b)
  {
    MonthEnds(a.year, a.month);
    MonthEnds(b.year, b.month);
    if a.year < b.year {
      DaysBeforeYearMonotone(a.year, b.year);
    } else if b.year < a.year {
      DaysBeforeYearMonotone(b.year, a.year);
    } else if a.month < b.month {
      DaysBeforeMonthMonotone(a.year, a.month, b.month);
    } else if b.month < a.month {
      DaysBeforeMonthMonotone(a.year, b.month, a.month);
    }
  }

  /** Distinct days have distinct ordinals. */
  lemma OrdinalInjective(a: Date, b: Date)
    requires WellFormed(a) && WellFormed(b) && Ordinal(a) == Ordinal(b)
    ensures a == b
  {
    OrdinalBefore(a, b);
    OrdinalBefore(b, a);
  }

  // ------------------------------------------------------ the days in a range

  /** Every day from `a` to `b` inclusive, in order; empty when `b < a`. */
  function DatesBetween(a: Date, b: Date): (ds: seq<Date>)
    requires WellFormed(a) && WellFormed(b)
    ensures forall i :: 0 <= i < |ds| ==> WellFormed(ds[i]) && NotAfter(a, ds[i]) && NotAfter(ds[i], b)
    decreases Ordinal(b) + 1 - Ordinal(a)
  {
    if NotAfter(a, b) then
      OrdinalBefore(a, b);
      OrdinalNextDay(a);
      [a] + DatesBetween(NextDay(a), b)
    else []
  }

  /** The range holds `(b - a).days + 1` days, and none when `b < a`. */
  lemma {:induction false} DatesBetweenLength(a: Date, b: Date)
    requires WellFormed(a) && WellFormed(b)
    ensures |DatesBetween(a, b)| == if NotAfter(a, b) then Ordinal(b) - Ordinal(a) + 1 else 0
    decreases Ordinal(b) + 1 - Ordinal(a)
  {
    if NotAfter(a, b) {
      OrdinalBefore(a, b);
      OrdinalNextDay(a);
      DatesBetweenLength(NextDay(a), b);
      OrdinalBefore(NextDay(a), b);
      if !NotAfter(NextDay(a), b) {
        OrdinalBefore(b, NextDay(a));
      }
    }
  }

  /** A day is in the range exactly when it lies between its ends. */
  lemma {:induction false} DatesBetweenMembers(a: Date, b: Date, d: Date)
    requires WellFormed(a) && WellFormed(b) && WellFormed(d)
    ensures d in DatesBetween(a, b) <==> NotAfter(a, d) && NotAfter(d, b)
    decreases Ordinal(b) + 1 - Ordinal(a)
  {
    if NotAfter(a, b) {
      OrdinalBefore(a, b);
      OrdinalNextDay(a);
      DatesBetweenMembers(NextDay(a), b, d);
      OrdinalBefore(a, d);
      OrdinalBefore(d, a);
      OrdinalBefore(NextDay(a), d);
      OrdinalBefore(d, NextDay(a));
      OrdinalBefore(d, b);
      OrdinalBefore(b, d);
      if Ordinal(d) == Ordinal(a) { OrdinalInjective(a, d); }
      if Ordinal(d) == Ordinal(NextDay(a)) { OrdinalInjective(NextDay(a), d); }
      if Ordinal(d) == Ordinal(b) { OrdinalInjective(b, d); }
    } else {
      OrdinalBefore(a, b);
      OrdinalBefore(b, a);
      OrdinalBefore(a, d);
      OrdinalBefore(d, a);
      OrdinalBefore(d, b);
      OrdinalBefore(b, d);
      if Ordinal(d) == Ordinal(a) { OrdinalInjective(a, d); }
      if Ordinal(d) == Ordinal(b) { OrdinalInjective(b, d); }
    }
  }

  /** A range cut after any day `c` inside it is the range up to `c` followed by the rest. */
  lemma {:induction false} DatesBetweenSplit(a: Date, c: Date, b: Date)
    requires WellFormed(a) && WellFormed(c) && WellFormed(b)
    requires NotAfter(a, c) && NotAfter(c, b)
    ensures DatesBetween(a, b) == DatesBetween(a, c) + DatesBetween(NextDay(c), b)
    decreases Ordinal(c) - Ordinal(a)
  {
    OrdinalBefore(a, c);
    OrdinalNextDay(a);
    if a == c {
      assert DatesBetween(NextDay(a), a) == [];
    } else {
      OrdinalBefore(NextDay(a), c);
      OrdinalBefore(c, NextDay(a));
      if Ordinal(NextDay(a)) == Ordinal(c) { OrdinalInjective(NextDay(a), c); }
      DatesBetweenSplit(NextDay(a), c, b);
    }
  }

  /** The days of a range are strictly increasing. */
  lemma {:induction false} DatesBetweenIncreasing(a: Date, b: Date)
    requires WellFormed(a) && WellFormed(b)
    ensures forall i, j :: 0 <= i < j < |DatesBetween(a, b)| ==> Before(DatesBetween(a, b)[i], DatesBetween(a, b)[j])
    decreases Ordinal(b) + 1 - Ordinal(a)
  {
    var ds := DatesBetween(a, b);
    if NotAfter(a, b) {
      OrdinalBefore(a, b);
      OrdinalNextDay(a);
      DatesBetweenIncreasing(NextDay(a), b);
      var rest := DatesBetween(NextDay(a), b);
      forall j | 1 <= j < |ds| ensures Before(ds[0], ds[j]) {
        assert ds[j] == rest[j - 1];
        DatesBetweenMembers(NextDay(a), b, ds[j]);
        OrdinalBefore(a, ds[j]);
        OrdinalBefore(NextDay(a), ds[j]);
      }
    }
  }

  // ------------------------------------------------------------- month keys

  /** Dates whose `'%Y-%m'` key is written with a four-digit year. */
  predicate Keyable(d: Date) { 0 <= d.year <= 9999 && 1 <= d.month <= 12 }

  /** `d.strftime('%Y-%m')`, with the year written as four digits and the month as two. */
  function MonthKey(d: Date): (k: string)
    requires Keyable(d)
    ensures |k| == 7 && k[4] == '-'
  {
    Fixed(d.year, 4) + "-" + Fixed(d.month, 2)
  }

  /** A month of 2025 as a key. */
  lemma MonthKey2025(d: Date)
    requires d.year == 2025 && 1 <= d.month <= 12
    ensures MonthKey(d) == "2025-" + [DigitChar(d.month / 10), DigitChar(d.month % 10)]
  {
    FixedTwo(d.month);
    FixedYear2025();
  }

  /** Month keys sort as the months they name: lexicographic order is chronological. */
  lemma MonthKeyOrder(a: Date, b: Date)
    requires Keyable(a) && Keyable(b)
    requires a.year < b.year || (a.year == b.year && a.month < b.month)
    ensures Lt(MonthKey(a), MonthKey(b))
  {
    if a.year < b.year {
      FixedLt(a.year, b.year, 4);
      LtEqualLength(Fixed(a.year, 4), Fixed(b.year, 4), "-" + Fixed(a.month, 2), "-" + Fixed(b.month, 2));
      assert MonthKey(a) == Fixed(a.year, 4) + ("-" + Fixed(a.month, 2));
      assert MonthKey(b) == Fixed(b.year, 4) + ("-" + Fixed(b.month, 2));
    } else {
      FixedLt(a.month, b.month, 2);
      LtSamePrefix(Fixed(a.year, 4) + "-", Fixed(a.month, 2), Fixed(b.month, 2));
    }
  }

  /** Two days share a month key exactly when they share year and month. */
  lemma MonthKeySame(a: Date, b: Date)
    requires Keyable(a) && Keyable(b)
    ensures MonthKey(a) == MonthKey(b) <==> a.year == b.year && a.month == b.month
  {
    if a.year < b.year || (a.year == b.year && a.month < b.month) {
      MonthKeyOrder(a, b);
      LtIrreflexive(MonthKey(a));
    } else if b.year < a.year || (a.year == b.year && b.month < a.month) {
      MonthKeyOrder(b, a);
      LtIrreflexive(MonthKey(b));
    }
  }
}
