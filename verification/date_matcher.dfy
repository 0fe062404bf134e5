/**
 * Date attribution for travel files: the date range written in a file name,
 * the number of days it spends in each `YYYY-MM` month, the month with the
 * most days, the month of a roster file, and the roster chosen for a month.
 */
module DateMatcher {
  import opened Wrappers
  import opened Text
  import opened Dicts
  import opened Sorting
  import opened Regex
  import opened Calendar

  // ------------------------------------------------------------ date ranges

  /** `i` is where Python's `max(d.items(), key=count)` stops: a largest count, and the first one. */
  predicate IsFirstMax(d: Dict<string, int>, i: nat) {
    && i < |d|
    && (forall j :: 0 <= j < |d| ==> d[j].1 <= d[i].1)
    && (forall j :: 0 <= j < i ==> d[j].1 < d[i].1)
  }

  function FirstMax(d: Dict<string, int>): (i: nat)
    requires d != []
    ensures IsFirstMax(d, i)
  {
    if |d| == 1 then 0
    else
      var k := FirstMax(d[1..]) + 1;
      if d[0].1 >= d[k].1 then 0 else k
  }

  /** A span of days and how many of them fall in each month, in the order the months are met. */
  datatype DateRange = DateRange(start: Date, end: Date, daysInMonth: Dict<string, int>)
  {
    /** `total_days`: `(end - start).days + 1`. */
    function TotalDays(): (n: int)
      requires WellFormed(start) && WellFormed(end)
      ensures NotAfter(start, end) ==> n == |DatesBetween(start, end)|
      ensures Before(end, start) ==> n <= 0
    {
      DatesBetweenLength(start, end);
      OrdinalBefore(end, start);
      Ordinal(end) - Ordinal(start) + 1
    }

    /** `main_month`: a month with the most days, the first such in the map; None for an empty map. */
    function MainMonth(): (r: Option<string>)
      ensures r.None? <==> daysInMonth == []
      ensures r.Some? ==> exists i: nat :: IsFirstMax(daysInMonth, i) && daysInMonth[i].0 == r.value
    {
      if daysInMonth == [] then None else Some(daysInMonth[FirstMax(daysInMonth)].0)
    }
  }

  /** `days[key] = days.get(key, 0) + 1`. */
  function Bump(days: Dict<string, int>, key: string): Dict<string, int> {
    Put(days, key, Get(days, key).GetOr(0) + 1)
  }

  /** The counts after bumping each key in turn. */
  function Tally(days: Dict<string, int>, ks: seq<string>): Dict<string, int>
  {
    if ks == [] then days else Bump(Tally(days, ks[..|ks| - 1]), ks[|ks| - 1])
  }

  /** The month key of each day, in order. */
  function MonthKeys(ds: seq<Date>): (ks: seq<string>)
    requires forall i :: 0 <= i < |ds| ==> Keyable(ds[i])
    ensures |ks| == |ds|
  {
    if ds == [] then [] else [MonthKey(ds[0])] + MonthKeys(ds[1..])
  }

  /** The `i`-th key is the key of the `i`-th day. */
  lemma {:induction false} MonthKeysAt(ds: seq<Date>)
    requires forall i :: 0 <= i < |ds| ==> Keyable(ds[i])
    ensures forall i :: 0 <= i < |ds| ==> MonthKeys(ds)[i] == MonthKey(ds[i])
  {
    if ds != [] {
      MonthKeysAt(ds[1..]);
    }
  }

  /** The days from a real day up to a valid one all have a month key. */
  lemma RangeKeyable(a: Date, b: Date)
    requires WellFormed(a) && IsValid(b)
    ensures forall i :: 0 <= i < |DatesBetween(a, b)| ==> Keyable(DatesBetween(a, b)[i])
  {
  }

  /** The map `_calculate_days_by_month` builds for the days from `a` to `b`. */
  function DaysByMonth(a: Date, b: Date): Dict<string, int>
    requires IsValid(a) && IsValid(b)
  {
    RangeKeyable(a, b);
    Tally([], MonthKeys(DatesBetween(a, b)))
  }

  /** One step of the walk: counting `current` and then the days after it. */
  lemma WalkStep(days: Dict<string, int>, current: Date, end: Date)
    requires WellFormed(current) && IsValid(end) && NotAfter(current, end)
    ensures Keyable(current)
    ensures forall i :: 0 <= i < |DatesBetween(NextDay(current), end)| ==> Keyable(DatesBetween(NextDay(current), end)[i])
    ensures Tally(days, MonthKeys(DatesBetween(current, end)))
            == Tally(Bump(days, MonthKey(current)), MonthKeys(DatesBetween(NextDay(current), end)))
  {
    OrdinalBefore(current, end);
    OrdinalNextDay(current);
    RangeKeyable(current, end);
    RangeKeyable(NextDay(current), end);
    var rest := MonthKeys(DatesBetween(NextDay(current), end));
    assert MonthKeys(DatesBetween(current, end)) == [MonthKey(current)] + rest;
    TallyAppend(days, [MonthKey(current)], rest);
    assert Tally(days, [MonthKey(current)]) == Bump(days, MonthKey(current));
  }

  /** `_calculate_days_by_month`: walks the days from `start` to `end`, counting each one under its month. */
  method CalculateDaysByMonth(start: Date, end: Date) returns (dr: DateRange)
    requires IsValid(start) && IsValid(end)
    ensures dr == DateRange(start, end, DaysByMonth(start, end))
  {
    var days: Dict<string, int> := [];
    var current := start;
    RangeKeyable(start, end);
    while NotAfter(current, end)
      invariant WellFormed(current)
      invariant forall i :: 0 <= i < |DatesBetween(current, end)| ==> Keyable(DatesBetween(current, end)[i])
      invariant Tally(days, MonthKeys(DatesBetween(current, end))) == DaysByMonth(start, end)
      decreases Ordinal(end) + 1 - Ordinal(current)
    {
      OrdinalBefore(current, end);
      OrdinalNextDay(current);
      WalkStep(days, current, end);
      var key := MonthKey(current);
      days := Bump(days, key);
      current := NextDay(current);
    }
    dr := DateRange(start, end, days);
  }

  // ------------------------------------------------- what the counts amount to

  function Total(d: Dict<string, int>): int {
    if d == [] then 0 else d[0].1 + Total(d[1..])
  }

  lemma {:induction false} TotalPut(d: Dict<string, int>, k: string, v: int)
    ensures Total(Put(d, k, v)) + Get(d, k).GetOr(0) == Total(d) + v
  {
    if d != [] && d[0].0 != k {
      TotalPut(d[1..], k, v);
    }
  }

  lemma BumpFacts(d: Dict<string, int>, k: string, k': string)
    ensures Total(Bump(d, k)) == Total(d) + 1
    ensures Get(Bump(d, k), k').GetOr(0) == Get(d, k').GetOr(0) + (if k == k' then 1 else 0)
    ensures Keys(Bump(d, k)) == if k in Keys(d) then Keys(d) else Keys(d) + [k]
  {
    TotalPut(d, k, Get(d, k).GetOr(0) + 1);
    PutKeys(d, k, Get(d, k).GetOr(0) + 1);
    if k != k' {
      PutOther(d, k, Get(d, k).GetOr(0) + 1, k');
    }
  }

  /** Each counted key adds exactly one to the total. */
  lemma {:induction false} TallyTotal(days: Dict<string, int>, ks: seq<string>)
    ensures Total(Tally(days, ks)) == Total(days) + |ks|
  {
    if ks != [] {
      TallyTotal(days, ks[..|ks| - 1]);
      BumpFacts(Tally(days, ks[..|ks| - 1]), ks[|ks| - 1], ks[|ks| - 1]);
    }
  }

  /** The count under `k` grows by the number of times `k` is counted. */
  lemma {:induction false} TallyCount(days: Dict<string, int>, ks: seq<string>, k: string)
    ensures Get(Tally(days, ks), k).GetOr(0) == Get(days, k).GetOr(0) + multiset(ks)[k]
  {
    if ks != [] {
      var init := ks[..|ks| - 1];
      TallyCount(days, init, k);
      assert ks == init + [ks[|ks| - 1]];
      BumpFacts(Tally(days, init), ks[|ks| - 1], k);
    }
  }

  /** Counting `xs` and then `ys` is counting `xs + ys`. */
  lemma {:induction false} TallyAppend(days: Dict<string, int>, xs: seq<string>, ys: seq<string>)
    ensures Tally(days, xs + ys) == Tally(Tally(days, xs), ys)
  {
    if ys == [] {
      assert xs + ys == xs;
    } else {
      TallyAppend(days, xs, ys[..|ys| - 1]);
      assert (xs + ys)[..|xs + ys| - 1] == xs + ys[..|ys| - 1];
    }
  }

  /** Counting one key `n` times adds `n` to it and touches nothing else. */
  lemma {:induction false} TallyRepeat(days: Dict<string, int>, ks: seq<string>, k: string)
    requires ks != [] && forall i :: 0 <= i < |ks| ==> ks[i] == k
    ensures Tally(days, ks) == Put(days, k, Get(days, k).GetOr(0) + |ks|)
  {
    var init := ks[..|ks| - 1];
    var c := Get(days, k).GetOr(0);
    assert ks == init + [k];
    TallySnoc(days, init, k);
    if init != [] {
      TallyRepeat(days, init, k);
      BumpPut(days, k, c + |init|);
    }
  }

  /** Counting one more key bumps the tally so far. */
  lemma TallySnoc(days: Dict<string, int>, init: seq<string>, k: string)
    ensures Tally(days, init + [k]) == Bump(Tally(days, init), k)
  {
    assert (init + [k])[..|init|] == init;
  }

  lemma BumpPut(d: Dict<string, int>, k: string, v: int)
    ensures Bump(Put(d, k, v), k) == Put(d, k, v + 1)
  {
    PutPut(d, k, v, v + 1);
  }

  predicate Ascending(ks: seq<string>) {
    forall i, j :: 0 <= i < j < |ks| ==> Lt(ks[i], ks[j])
  }

  predicate NonDecreasing(ks: seq<string>) {
    forall i, j :: 0 <= i < j < |ks| ==> Le(ks[i], ks[j])
  }

  /**
   * Keys counted in non-decreasing order are inserted in ascending order
   * (hence distinct), and each is one of the counted keys.
   */
  lemma {:induction false} TallyKeysAscending(ks: seq<string>)
    requires NonDecreasing(ks)
    ensures Ascending(Keys(Tally([], ks)))
    ensures forall k :: k in Keys(Tally([], ks)) ==> k in ks
  {
    if ks != [] {
      var init := ks[..|ks| - 1];
      var kx := ks[|ks| - 1];
      assert NonDecreasing(init);
      TallyKeysAscending(init);
      var t := Tally([], init);
      BumpFacts(t, kx, kx);
      if kx !in Keys(t) {
        var all := Keys(t) + [kx];
        forall i, j | 0 <= i < j < |all| ensures Lt(all[i], all[j]) {
          if j == |all| - 1 {
            assert all[i] in Keys(t);
            assert all[i] in init;
            var p :| 0 <= p < |init| && init[p] == all[i];
            assert Le(ks[p], ks[|ks| - 1]);
          } else {
            assert all[i] == Keys(t)[i] && all[j] == Keys(t)[j];
          }
        }
      }
    }
  }

  /** The days of a range meet their months in chronological, hence lexicographic, order. */
  lemma RangeMonthKeysNonDecreasing(a: Date, b: Date)
    requires IsValid(a) && IsValid(b)
    ensures forall i :: 0 <= i < |DatesBetween(a, b)| ==> Keyable(DatesBetween(a, b)[i])
    ensures NonDecreasing(MonthKeys(DatesBetween(a, b)))
  {
    var ds := DatesBetween(a, b);
    DatesBetweenIncreasing(a, b);
    var ks := MonthKeys(ds);
    MonthKeysAt(ds);
    forall i, j | 0 <= i < j < |ks| ensures Le(ks[i], ks[j]) {
      assert Before(ds[i], ds[j]);
      if ds[i].year != ds[j].year || ds[i].month != ds[j].month {
        MonthKeyOrder(ds[i], ds[j]);
      }
    }
  }

  /** Over a non-empty range the day counts add up to `total_days`; over an empty one there are none. */
  lemma DaysSumToTotal(a: Date, b: Date)
    requires IsValid(a) && IsValid(b)
    ensures NotAfter(a, b) ==> Total(DaysByMonth(a, b)) == DateRange(a, b, DaysByMonth(a, b)).TotalDays()
    ensures Before(b, a) ==> DaysByMonth(a, b) == [] && DateRange(a, b, DaysByMonth(a, b)).MainMonth().None?
  {
    RangeKeyable(a, b);
    TallyTotal([], MonthKeys(DatesBetween(a, b)));
  }

  /** The count under a key is the number of days of the range in that month. */
  lemma DaysCountEachMonth(a: Date, b: Date, k: string)
    requires IsValid(a) && IsValid(b)
    ensures forall i :: 0 <= i < |DatesBetween(a, b)| ==> Keyable(DatesBetween(a, b)[i])
    ensures Get(DaysByMonth(a, b), k).GetOr(0) == multiset(MonthKeys(DatesBetween(a, b)))[k]
  {
    RangeKeyable(a, b);
    TallyCount([], MonthKeys(DatesBetween(a, b)), k);
  }

  /** The keys are exactly the months that the range touches. */
  lemma DaysKeysAreMonths(a: Date, b: Date, k: string)
    requires IsValid(a) && IsValid(b)
    ensures forall i :: 0 <= i < |DatesBetween(a, b)| ==> Keyable(DatesBetween(a, b)[i])
    ensures Get(DaysByMonth(a, b), k).Some? <==> k in MonthKeys(DatesBetween(a, b))
  {
    RangeKeyable(a, b);
    var ks := MonthKeys(DatesBetween(a, b));
    DaysCountEachMonth(a, b, k);
    RangeMonthKeysNonDecreasing(a, b);
    TallyKeysAscending(ks);
  }

  /** Keys in ascending order are distinct. */
  lemma AscendingDistinct(d: Dict<string, int>)
    requires Ascending(Keys(d))
    ensures DistinctKeys(d)
  {
    var ks := Keys(d);
    KeysAt(d);
    forall p, q | 0 <= p < q < |d| ensures d[p].0 != d[q].0 {
      assert Lt(ks[p], ks[q]);
      LtIrreflexive(ks[p]);
    }
  }

  /**
   * In a map whose keys ascend, the first maximum is found by its key, holds
   * the largest count, and on a tie has the smallest key.
   */
  lemma FirstMaxAscending(d: Dict<string, int>)
    requires d != [] && Ascending(Keys(d))
    ensures var i := FirstMax(d);
            Get(d, d[i].0) == Some(d[i].1)
            && forall j :: 0 <= j < |d| ==> d[j].1 <= d[i].1 && (d[j].1 == d[i].1 ==> Le(d[i].0, d[j].0))
  {
    var i := FirstMax(d);
    AscendingDistinct(d);
    GetEntry(d, i);
    var ks := Keys(d);
    KeysAt(d);
    forall j | 0 <= j < |d| && d[j].1 == d[i].1 ensures Le(d[i].0, d[j].0) {
      if i < j {
        assert Lt(ks[i], ks[j]);
      } else {
        assert i == j;
      }
    }
  }

  /**
   * `main_month` on a computed range has the most days, and on a tie the
   * chronologically earliest month wins: months are inserted in date order and
   * `max` keeps the first maximum.
   */
  lemma MainMonthEarliestOnTie(a: Date, b: Date)
    requires IsValid(a) && IsValid(b)
    ensures var d := DaysByMonth(a, b);
            var main := DateRange(a, b, d).MainMonth();
            main.Some? ==> Get(d, main.value).Some? && forall j :: 0 <= j < |d| ==>
              d[j].1 <= Get(d, main.value).value
              && (d[j].1 == Get(d, main.value).value ==> Le(main.value, d[j].0))
  {
    var d := DaysByMonth(a, b);
    if d != [] {
      assert Ascending(Keys(d)) by {
        RangeMonthKeysNonDecreasing(a, b);
        TallyKeysAscending(MonthKeys(DatesBetween(a, b)));
      }
      FirstMaxAscending(d);
    }
  }

  /** A whole calendar month is counted under one key, with that month's length. */
  lemma WholeMonthOneKey(y: int, m: int)
    requires 1 <= y <= 9999 && 1 <= m <= 12
    ensures DaysByMonth(Date(y, m, 1), LastDayOfMonth(y, m)) == [(MonthKey(Date(y, m, 1)), DaysInMonth(y, m))]
  {
    var a, b := Date(y, m, 1), LastDayOfMonth(y, m);
    SameMonthRun(a, b);
    TallyRepeatFromEmpty(Repeat(MonthKey(a), DaysInMonth(y, m)), MonthKey(a));
  }

  lemma TallyRepeatFromEmpty(ks: seq<string>, k: string)
    requires ks != [] && forall i :: 0 <= i < |ks| ==> ks[i] == k
    ensures Tally([], ks) == [(k, |ks|)]
  {
    var empty: Dict<string, int> := [];
    TallyRepeat(empty, ks, k);
    assert Get(empty, k) == None;
    assert Put(empty, k, |ks|) == [(k, |ks|)];
  }

  // ------------------------------------------------------ dates in file names

  /** Python `date(y, m, d)`: None where it raises `ValueError`. */
  function MakeDate(y: int, m: int, d: int): (r: Option<Date>)
    ensures r.Some? <==> IsValid(Date(y, m, d))
    ensures r.Some? ==> r.value == Date(y, m, d)
  {
    if 1 <= m <= 12 && 1 <= d <= DaysInMonth(y, m) && 1 <= y <= 9999 then Some(Date(y, m, d)) else None
  }

  const CompactDate: Pattern := [Digits(4), Digits(2), Digits(2)]
  const DashedDate: Pattern := [Digits(4), Lit('-'), Digits(2), Lit('-'), Digits(2)]
  const MonthDay: Pattern := [Digits(2), Digits(2)]

  /** `extract_date_from_string`: `YYYYMMDD`, then `YYYY-MM-DD`, then `MMDD` in the hinted year. */
  function ExtractDateFromString(text: string, yearHint: Option<int>): (r: Option<Date>)
    ensures r.Some? ==> IsValid(r.value)
  {
    var compact :=
      match SearchGroups(text, CompactDate)
      case Some(gs) => MakeDate(Value(gs[0]), Value(gs[1]), Value(gs[2]))
      case None => None;
    if compact.Some? then compact
    else
      var dashed :=
        match SearchGroups(text, DashedDate)
        case Some(gs) => MakeDate(Value(gs[0]), Value(gs[1]), Value(gs[2]))
        case None => None;
      if dashed.Some? then dashed
      else if yearHint.Some? && yearHint.value != 0 then
        match SearchGroups(text, MonthDay)
        case Some(gs) => MakeDate(yearHint.value, Value(gs[0]), Value(gs[1]))
        case None => None
      else None
  }

  /** `d.strftime('%Y%m%d')`. */
  function CompactText(d: Date): (s: string)
    requires Keyable(d) && 0 <= d.day < 100
    ensures |s| == 8 && AllDigits(s)
  {
    Fixed(d.year, 4) + Fixed(d.month, 2) + Fixed(d.day, 2)
  }

  /** Reading a date written as `YYYYMMDD` gives the date back, whatever the year hint. */
  lemma ExtractCompactRoundTrip(d: Date, rest: string, yearHint: Option<int>)
    requires IsValid(d)
    ensures ExtractDateFromString(CompactText(d) + rest, yearHint) == Some(d)
  {
    var gs := [Fixed(d.year, 4), Fixed(d.month, 2), Fixed(d.day, 2)];
    var s := CompactText(d) + rest;
    assert Widths(CompactDate) == [4, 2, 2];
    assert CompactDate[1..] == [Digits(2), Digits(2)] && CompactDate[1..][1..] == [Digits(2)];
    assert Render([Digits(2)], gs[2..]) == gs[2];
    assert Render([Digits(2), Digits(2)], gs[1..]) == gs[1] + gs[2];
    assert Render(CompactDate, gs) == CompactText(d);
    SearchAfterPrefix(s, 0, 0, CompactDate, gs);
    ValueFixed(d.year, 4);
    ValueFixed(d.month, 2);
    ValueFixed(d.day, 2);
  }

  // ------------------------------------------------------ ranges in file names

  /**
   * The last day of month `m` of year `y` as the source computes it: December
   * 31 for month 12, otherwise the day before the first of month `m + 1`
   * (so month 0 means December of the year before). None where `date` raises.
   */
  function MonthEnd(y: int, m: int): (r: Option<Date>)
    ensures r.Some? ==> IsValid(r.value) && r.value.day == DaysInMonth(r.value.year, r.value.month)
    ensures 1 <= y <= 9999 && 1 <= m <= 12 ==> r == Some(LastDayOfMonth(y, m))
    ensures 2 <= y <= 9999 && m == 0 ==> r == Some(LastDayOfMonth(y - 1, 12))
    ensures r.None? <==> !(1 <= y <= 9999 && 0 <= m <= 12) || (y == 1 && m == 0)
  {
    if m == 12 then MakeDate(y, 12, 31)
    else match MakeDate(y, m + 1, 1)
      case None => None
      case Some(first) => PrevDay(first)
  }

  /**
   * From the first day of the month written `YYYYMM` in `from` to the last day
   * of the month written in `to`; None when either does not exist.
   */
  function MonthSpan(from: string, to: string): (r: Option<(Date, Date)>)
    requires |from| == 6 && AllDigits(from) && |to| == 6 && AllDigits(to)
    ensures r.Some? ==> IsValid(r.value.0) && IsValid(r.value.1) && r.value.0.day == 1
                        && r.value.1.day == DaysInMonth(r.value.1.year, r.value.1.month)
  {
    match (MakeDate(Value(from[..4]), Value(from[4..]), 1), MonthEnd(Value(to[..4]), Value(to[4..])))
    case (Some(a), Some(b)) => Some((a, b))
    case _ => None
  }

  const DayRange: Pattern := [Digits(8), Lit('-'), Digits(8)]
  const MonthRange: Pattern := [Digits(6), Lit('-'), Digits(6)]
  const OneMonth: Pattern := [Digits(6)]

  /** Tier one: the first `\d{8}-\d{8}`, each half read by `extract_date_from_string`. */
  function DayRangeBounds(name: string): (r: Option<(Date, Date)>)
    ensures r.Some? ==> IsValid(r.value.0) && IsValid(r.value.1)
  {
    match SearchGroups(name, DayRange)
    case None => None
    case Some(gs) =>
      assert Widths(DayRange) == [8] + Widths([Lit('-'), Digits(8)]) == [8, 8];
      match (ExtractDateFromString(gs[0], None), ExtractDateFromString(gs[1], None))
      case (Some(a), Some(b)) => Some((a, b))
      case _ => None
  }

  /** Tier two: the first `\d{6}-\d{6}`, from the start of one month to the end of the other. */
  function MonthRangeBounds(name: string): (r: Option<(Date, Date)>)
    ensures r.Some? ==> IsValid(r.value.0) && IsValid(r.value.1)
  {
    match SearchGroups(name, MonthRange)
    case None => None
    case Some(gs) =>
      assert Widths(MonthRange) == [6] + Widths([Lit('-'), Digits(6)]) == [6, 6];
      MonthSpan(gs[0], gs[1])
  }

  /** Tier three: the first six digits in a row, as one whole month. */
  function OneMonthBounds(name: string): (r: Option<(Date, Date)>)
    ensures r.Some? ==> IsValid(r.value.0) && IsValid(r.value.1)
  {
    match SearchGroups(name, OneMonth)
    case None => None
    case Some(gs) =>
      assert Widths(OneMonth) == [6];
      MonthSpan(gs[0], gs[0])
  }

  /** The first and last day named by a travel file: the first tier that yields two dates wins. */
  function DateBounds(name: string): (r: Option<(Date, Date)>)
    ensures r.Some? ==> IsValid(r.value.0) && IsValid(r.value.1)
    ensures r.None? <==> DayRangeBounds(name).None? && MonthRangeBounds(name).None? && OneMonthBounds(name).None?
  {
    if DayRangeBounds(name).Some? then DayRangeBounds(name)
    else if MonthRangeBounds(name).Some? then MonthRangeBounds(name)
    else OneMonthBounds(name)
  }

  /** `parse_date_range_from_filename`: the bounds of the file name and the days they span in each month. */
  method ParseDateRangeFromFilename(name: string) returns (r: Option<DateRange>)
    ensures r.None? <==> DateBounds(name).None?
    ensures r.Some? ==> var (a, b) := DateBounds(name).value;
                        r.value == DateRange(a, b, DaysByMonth(a, b))
  {
    var bounds := DateBounds(name);
    if bounds.None? {
      return None;
    }
    var (a, b) := bounds.value;
    var dr := CalculateDaysByMonth(a, b);
    return Some(dr);
  }

  // ------------------------------------------- what the tiers read, and examples

  /** A name `<prefix>YYYYMMDD-YYYYMMDD<suffix>` with no digit before the range yields the two days it spells. */
  lemma DayRangeName(prefix: string, a: Date, b: Date, suffix: string)
    requires IsValid(a) && IsValid(b)
    requires forall j :: 0 <= j < |prefix| ==> !IsDigit(prefix[j])
    ensures DateBounds(prefix + CompactText(a) + "-" + CompactText(b) + suffix) == Some((a, b))
  {
    var name := prefix + CompactText(a) + "-" + CompactText(b) + suffix;
    var gs := [CompactText(a), CompactText(b)];
    assert Widths(DayRange) == [8] + Widths([Lit('-'), Digits(8)]) == [8, 8];
    assert DayRange[1..] == [Lit('-'), Digits(8)] && DayRange[1..][1..] == [Digits(8)];
    assert Render([Digits(8)], gs[1..]) == gs[1];
    assert Render(DayRange, gs) == CompactText(a) + "-" + CompactText(b);
    assert name[|prefix|..|prefix| + 17] == Render(DayRange, gs);
    SearchAfterPrefix(name, 0, |prefix|, DayRange, gs);
    assert CompactText(a) + "" == CompactText(a) && CompactText(b) + "" == CompactText(b);
    ExtractCompactRoundTrip(a, "", None);
    ExtractCompactRoundTrip(b, "", None);
  }

  /** A name whose only digits are two runs of six around a `-` holds no eight digits in a row. */
  lemma MonthRangeNoDayRun(prefix: string, g1: string, g2: string, suffix: string)
    requires |g1| == 6 && |g2| == 6
    requires forall j :: 0 <= j < |prefix| ==> !IsDigit(prefix[j])
    requires forall j :: 0 <= j < |suffix| ==> !IsDigit(suffix[j])
    ensures NoDigitRun(prefix + g1 + "-" + g2 + suffix, 8)
  {
    var name := prefix + g1 + "-" + g2 + suffix;
    var p := |prefix|;
    forall j: nat | j <= |name| ensures !DigitRunAt(name, j, 8) {
      if j + 8 <= |name| {
        if j < p {
          assert name[j..j + 8][0] == name[j] == prefix[j];
        } else if j <= p + 6 {
          assert name[j..j + 8][p + 6 - j] == name[p + 6] == '-';
        } else {
          assert name[j..j + 8][7] == name[j + 7] == suffix[j + 7 - p - 13];
        }
      }
    }
  }

  /** A month written `YYYYMM`, as in `d.strftime('%Y%m')`. */
  function MonthText(y: nat, m: nat): (s: string)
    ensures |s| == 6 && AllDigits(s)
  {
    Fixed(y, 4) + Fixed(m, 2)
  }

  /** Reading `YYYYMM` back from its fixed-width text. */
  lemma MonthDigits(y: int, m: int)
    requires 1 <= y <= 9999 && 1 <= m <= 12
    ensures var g := MonthText(y, m);
            Value(g[..4]) == y && Value(g[4..]) == m
  {
    var g := MonthText(y, m);
    assert g[..4] == Fixed(y, 4) && g[4..] == Fixed(m, 2);
    ValueFixed(y, 4);
    ValueFixed(m, 2);
  }

  /** A name `<prefix>YYYYMM-YYYYMM<suffix>` with no other digit spans the first month's first day to the second's last. */
  lemma MonthRangeName(prefix: string, y1: int, m1: int, y2: int, m2: int, suffix: string)
    requires 1 <= y1 <= 9999 && 1 <= m1 <= 12 && 1 <= y2 <= 9999 && 1 <= m2 <= 12
    requires forall j :: 0 <= j < |prefix| ==> !IsDigit(prefix[j])
    requires forall j :: 0 <= j < |suffix| ==> !IsDigit(suffix[j])
    ensures DateBounds(prefix + MonthText(y1, m1) + "-" + MonthText(y2, m2) + suffix)
            == Some((Date(y1, m1, 1), LastDayOfMonth(y2, m2)))
  {
    var g1, g2 := MonthText(y1, m1), MonthText(y2, m2);
    var name := prefix + g1 + "-" + g2 + suffix;
    assert DayRangeBounds(name).None? by {
      MonthRangeNoDayRun(prefix, g1, g2, suffix);
      SearchNoRun(name, 0, DayRange);
    }
    var gs := [g1, g2];
    assert Search(name, 0, [MonthRange]) == Some(Found(|prefix|, 0, gs)) by {
      assert Widths(MonthRange) == [6] + Widths([Lit('-'), Digits(6)]) == [6, 6];
      assert MonthRange[1..] == [Lit('-'), Digits(6)] && MonthRange[1..][1..] == [Digits(6)];
      assert Render([Digits(6)], gs[1..]) == g2;
      assert Render(MonthRange, gs) == g1 + "-" + g2;
      assert name[|prefix|..|prefix| + 13] == Render(MonthRange, gs);
      SearchAfterPrefix(name, 0, |prefix|, MonthRange, gs);
    }
    MonthDigits(y1, m1);
    MonthDigits(y2, m2);
    assert MonthRangeBounds(name) == MonthSpan(g1, g2);
  }

  /**
   * A name `<prefix>YYYYMM<suffix>` with no other digit and no `-` names one
   * whole month, counted under its own key with that month's length.
   */
  lemma OneMonthName(prefix: string, y: int, m: int, suffix: string)
    requires 1 <= y <= 9999 && 1 <= m <= 12
    requires forall j :: 0 <= j < |prefix| ==> !IsDigit(prefix[j]) && prefix[j] != '-'
    requires forall j :: 0 <= j < |suffix| ==> suffix[j] != '-'
    ensures DateBounds(prefix + MonthText(y, m) + suffix) == Some((Date(y, m, 1), LastDayOfMonth(y, m)))
    ensures DaysByMonth(Date(y, m, 1), LastDayOfMonth(y, m)) == [(MonthKey(Date(y, m, 1)), DaysInMonth(y, m))]
  {
    DigitsLackHyphen(prefix, MonthText(y, m), suffix);
    OneMonthSearch(prefix, y, m, suffix);
    WholeMonthOneKey(y, m);
  }

  /** A name built around a run of digits from hyphen-free parts has no hyphen. */
  lemma DigitsLackHyphen(prefix: string, g: string, suffix: string)
    requires AllDigits(g)
    requires forall j :: 0 <= j < |prefix| ==> prefix[j] != '-'
    requires forall j :: 0 <= j < |suffix| ==> suffix[j] != '-'
    ensures Lacks(prefix + g + suffix, '-')
  {
    var name := prefix + g + suffix;
    forall k | 0 <= k < |name| ensures name[k] != '-' {
      if k < |prefix| {
        assert name[k] == prefix[k];
      } else if k < |prefix| + |g| {
        assert name[k] == g[k - |prefix|];
      } else {
        assert name[k] == suffix[k - |prefix| - |g|];
      }
    }
  }

  /** Without a hyphen only the third tier can match, and it reads the month after the digit-free prefix. */
  lemma OneMonthSearch(prefix: string, y: int, m: int, suffix: string)
    requires 1 <= y <= 9999 && 1 <= m <= 12
    requires forall j :: 0 <= j < |prefix| ==> !IsDigit(prefix[j])
    requires Lacks(prefix + MonthText(y, m) + suffix, '-')
    ensures DateBounds(prefix + MonthText(y, m) + suffix) == Some((Date(y, m, 1), LastDayOfMonth(y, m)))
  {
    var g := MonthText(y, m);
    var name := prefix + g + suffix;
    MonthDigits(y, m);
    assert DayRangeBounds(name).None? && MonthRangeBounds(name).None? by {
      SearchNeedsLit(name, 0, DayRange, '-');
      SearchNeedsLit(name, 0, MonthRange, '-');
    }
    assert Search(name, 0, [OneMonth]) == Some(Found(|prefix|, 0, [g])) by {
      assert Widths(OneMonth) == [6];
      assert Render(OneMonth, [g]) == g + Render([], []);
      assert name[|prefix|..|prefix| + 6] == g;
      SearchAfterPrefix(name, 0, |prefix|, OneMonth, [g]);
    }
    assert OneMonthBounds(name) == MonthSpan(g, g);
  }

  /** Counting a run of one key and then a run of another gives the two counts, in that order. */
  lemma TallyTwoRuns(xs: seq<string>, ys: seq<string>, kx: string, ky: string)
    requires xs != [] && forall i :: 0 <= i < |xs| ==> xs[i] == kx
    requires ys != [] && forall i :: 0 <= i < |ys| ==> ys[i] == ky
    requires kx != ky
    ensures Tally([], xs + ys) == [(kx, |xs|), (ky, |ys|)]
  {
    TallyRepeatFromEmpty(xs, kx);
    var first: Dict<string, int> := [(kx, |xs|)];
    assert Keys(first) == [kx];
    TallyRunNew(first, ys, ky);
    TallyAppend([], xs, ys);
  }

  /** A run of a key not yet counted is counted in a new last entry. */
  lemma TallyRunNew(d: Dict<string, int>, ys: seq<string>, ky: string)
    requires ys != [] && forall i :: 0 <= i < |ys| ==> ys[i] == ky
    requires ky !in Keys(d)
    ensures Tally(d, ys) == d + [(ky, |ys|)]
  {
    TallyRepeat(d, ys, ky);
    PutNew(d, ky, |ys|);
  }

  /** `n` copies of the key `k`. */
  function Repeat(k: string, n: nat): (r: seq<string>)
    ensures |r| == n && forall i :: 0 <= i < n ==> r[i] == k
  {
    seq(n, _ => k)
  }

  /** The days from `a` to a later day `c` of the same month all carry `a`'s key. */
  lemma SameMonthRun(a: Date, c: Date)
    requires IsValid(a) && IsValid(c) && a.year == c.year && a.month == c.month && a.day <= c.day
    ensures forall i :: 0 <= i < |DatesBetween(a, c)| ==> Keyable(DatesBetween(a, c)[i])
    ensures MonthKeys(DatesBetween(a, c)) == Repeat(MonthKey(a), c.day - a.day + 1)
  {
    RangeKeyable(a, c);
    DatesBetweenLength(a, c);
    var ds := DatesBetween(a, c);
    var ks := MonthKeys(ds);
    MonthKeysAt(ds);
    forall i | 0 <= i < |ds| ensures ks[i] == MonthKey(a) {
      assert ds[i].year == a.year && ds[i].month == a.month;
      MonthKeySame(ds[i], a);
    }
  }

  /** The keys of two runs of days, one after the other, are the keys of the first run, then of the second. */
  lemma MonthKeysAppend(xs: seq<Date>, ys: seq<Date>)
    requires forall i :: 0 <= i < |xs| ==> Keyable(xs[i])
    requires forall i :: 0 <= i < |ys| ==> Keyable(ys[i])
    ensures MonthKeys(xs + ys) == MonthKeys(xs) + MonthKeys(ys)
  {
    var zs := xs + ys;
    forall i | 0 <= i < |zs| ensures zs[i] == if i < |xs| then xs[i] else ys[i - |xs|] { }
    MonthKeysAt(xs);
    MonthKeysAt(ys);
    MonthKeysAt(zs);
    var l, r := MonthKeys(zs), MonthKeys(xs) + MonthKeys(ys);
    forall i | 0 <= i < |l| ensures l[i] == r[i] {
      if i >= |xs| {
        assert r[i] == MonthKeys(ys)[i - |xs|];
      }
    }
  }

  /** `b`'s month is the one right after `a`'s. */
  predicate NextMonth(a: Date, b: Date) {
    if a.month < 12 then b.year == a.year && b.month == a.month + 1
    else b.year == a.year + 1 && b.month == 1
  }

  /** The keys of a range are those of its part up to `c`, then those of the rest. */
  lemma MonthKeysSplit(a: Date, c: Date, b: Date)
    requires IsValid(a) && IsValid(c) && IsValid(b) && NotAfter(a, c) && NotAfter(c, b)
    ensures forall i :: 0 <= i < |DatesBetween(a, b)| ==> Keyable(DatesBetween(a, b)[i])
    ensures forall i :: 0 <= i < |DatesBetween(a, c)| ==> Keyable(DatesBetween(a, c)[i])
    ensures forall i :: 0 <= i < |DatesBetween(NextDay(c), b)| ==> Keyable(DatesBetween(NextDay(c), b)[i])
    ensures MonthKeys(DatesBetween(a, b)) == MonthKeys(DatesBetween(a, c)) + MonthKeys(DatesBetween(NextDay(c), b))
  {
    RangeKeyable(a, b);
    RangeKeyable(a, c);
    RangeKeyable(NextDay(c), b);
    DatesBetweenSplit(a, c, b);
    MonthKeysAppend(DatesBetween(a, c), DatesBetween(NextDay(c), b));
  }

  /** A range into the next month steps from `a`'s month to `b`'s at the end of `a`'s month. */
  lemma TwoMonthKeys(a: Date, b: Date)
    requires IsValid(a) && IsValid(b) && NextMonth(a, b)
    ensures forall i :: 0 <= i < |DatesBetween(a, b)| ==> Keyable(DatesBetween(a, b)[i])
    ensures MonthKeys(DatesBetween(a, b))
            == Repeat(MonthKey(a), DaysInMonth(a.year, a.month) - a.day + 1) + Repeat(MonthKey(b), b.day)
  {
    var c := LastDayOfMonth(a.year, a.month);
    var f := Date(b.year, b.month, 1);
    assert NextDay(c) == f;
    MonthKeysSplit(a, c, b);
    SameMonthRun(a, c);
    SameMonthRun(f, b);
    MonthKeySame(f, b);
  }

  /**
   * A range from `a` to a day `b` of the month right after `a`'s is counted
   * under two keys: the rest of `a`'s month, then the first `b.day` days of the next.
   */
  lemma DaysAcrossTwoMonths(a: Date, b: Date)
    requires IsValid(a) && IsValid(b) && NextMonth(a, b)
    ensures DaysByMonth(a, b) == [(MonthKey(a), DaysInMonth(a.year, a.month) - a.day + 1), (MonthKey(b), b.day)]
  {
    var ka, kb := MonthKey(a), MonthKey(b);
    var xs, ys := Repeat(ka, DaysInMonth(a.year, a.month) - a.day + 1), Repeat(kb, b.day);
    TwoMonthKeys(a, b);
    assert DaysByMonth(a, b) == Tally([], xs + ys);
    NextMonthKey(a, b);
    TallyTwoRuns(xs, ys, ka, kb);
  }

  /** The month after `a`'s has another key. */
  lemma NextMonthKey(a: Date, b: Date)
    requires IsValid(a) && IsValid(b) && NextMonth(a, b)
    ensures MonthKey(a) != MonthKey(b)
  {
    MonthKeySame(a, b);
  }

  /** The first example name of the source, `阿里20251125-20251224.xlsx`: a day range from November 25 to December 24, 2025. */
  lemma AlibabaName()
    ensures DateBounds("阿里" + "20251125" + "-" + "20251224" + ".xlsx") == Some((Date(2025, 11, 25), Date(2025, 12, 24)))
  {
    var a, b := Date(2025, 11, 25), Date(2025, 12, 24);
    assert CompactText(a) == "20251125" && CompactText(b) == "20251224" by {
      CompactText2025(a);
      CompactText2025(b);
    }
    DayRangeName("阿里", a, b, ".xlsx");
  }

  /** A day of 2025 written `YYYYMMDD`. */
  lemma CompactText2025(d: Date)
    requires d.year == 2025 && 1 <= d.month <= 12 && 1 <= d.day <= 31
    ensures CompactText(d) == "2025" + [DigitChar(d.month / 10), DigitChar(d.month % 10),
                                        DigitChar(d.day / 10), DigitChar(d.day % 10)]
  {
    FixedTwo(d.month);
    FixedTwo(d.day);
    FixedYear2025();
  }

  /** Six of its days fall in November and 24 in December, so it belongs to December. */
  lemma AlibabaDays(a: Date, b: Date)
    requires a == Date(2025, 11, 25) && b == Date(2025, 12, 24)
    ensures DaysByMonth(a, b) == [("2025-11", 6), ("2025-12", 24)]
    ensures DateRange(a, b, DaysByMonth(a, b)).MainMonth() == Some("2025-12")
  {
    assert MonthKey(a) == "2025-11" && MonthKey(b) == "2025-12" by {
      MonthKey2025(a);
      MonthKey2025(b);
    }
    DaysAcrossTwoMonths(a, b);
  }

  /** A month-range name, `在途202510-202511.xls`: October 2025 through November 2025. */
  lemma ZaituName()
    ensures DateBounds("在途" + "202510" + "-" + "202511" + ".xls") == Some((Date(2025, 10, 1), Date(2025, 11, 30)))
  {
    assert MonthText(2025, 10) == "202510" && MonthText(2025, 11) == "202511" by {
      FixedYear2025();
      FixedTwo(10);
      FixedTwo(11);
    }
    MonthRangeName("在途", 2025, 10, 2025, 11, ".xls");
  }

  /** October has one day more than November, so the two months belong to October. */
  lemma ZaituDays(a: Date, b: Date)
    requires a == Date(2025, 10, 1) && b == Date(2025, 11, 30)
    ensures DaysByMonth(a, b) == [("2025-10", 31), ("2025-11", 30)]
    ensures DateRange(a, b, DaysByMonth(a, b)).MainMonth() == Some("2025-10")
  {
    assert MonthKey(a) == "2025-10" && MonthKey(b) == "2025-11" by {
      MonthKey2025(a);
      MonthKey2025(b);
    }
    DaysAcrossTwoMonths(a, b);
  }

  /** A day range, `携程20250117-20250215.xlsx`: January 17 to February 15, 2025. */
  lemma TieName()
    ensures DateBounds("携程" + "20250117" + "-" + "20250215" + ".xlsx") == Some((Date(2025, 1, 17), Date(2025, 2, 15)))
  {
    var a, b := Date(2025, 1, 17), Date(2025, 2, 15);
    assert CompactText(a) == "20250117" && CompactText(b) == "20250215" by {
      CompactText2025(a);
      CompactText2025(b);
    }
    DayRangeName("携程", a, b, ".xlsx");
  }

  /** Fifteen days in each month: the tie goes to the earlier month. */
  lemma TieDays(a: Date, b: Date)
    requires a == Date(2025, 1, 17) && b == Date(2025, 2, 15)
    ensures DaysByMonth(a, b) == [("2025-01", 15), ("2025-02", 15)]
    ensures DateRange(a, b, DaysByMonth(a, b)).MainMonth() == Some("2025-01")
  {
    assert MonthKey(a) == "2025-01" && MonthKey(b) == "2025-02" by {
      MonthKey2025(a);
      MonthKey2025(b);
    }
    DaysAcrossTwoMonths(a, b);
  }
}
