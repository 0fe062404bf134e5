/**
 * Merging the monthly travel data (scripts/merge_data.py): what merging reads
 * from a record (amount, date, employee), the five-way summary, the position
 * indexes and the combination of the monthly files.
 *
 * A record is the dictionary a vendor extractor wrote, reduced to the keys
 * merging reads; a missing key is `None`. Amounts are whole numbers of cents,
 * so the running sums are exact.
 */
module MergeData {
  import opened Wrappers
  import opened Text
  import opened Dicts
  import opened Sorting
  import opened Calendar

  datatype TravelRecord = TravelRecord(
    kind: Option<string>, source: Option<string>, deptLevel1: Option<string>,
    passenger: Option<string>, employee: Option<string>,
    price: Option<int>, totalAmount: Option<int>,
    departTime: Option<string>, checkInTime: Option<string>, pickupTime: Option<string>)

  const Flight: string := "flight"
  const Hotel: string := "hotel"
  const Train: string := "train"
  const Car: string := "car"

  /** The record's `type`, "" when missing. */
  function KindOf(r: TravelRecord): string { r.kind.GetOr("") }

  // ------------------------------------------------------------ reading a record

  /** Python `parse_amount`: the price of a flight, hotel or train, the total of a car ride, and 0 for any other type or a missing field. */
  function ParseAmount(r: TravelRecord): (a: int)
    ensures a != 0 ==> (KindOf(r) in {Flight, Hotel, Train} && r.price == Some(a)) || (KindOf(r) == Car && r.totalAmount == Some(a))
    ensures KindOf(r) in {Flight, Hotel, Train} ==> a == r.price.GetOr(0)
    ensures KindOf(r) == Car ==> a == r.totalAmount.GetOr(0)
  {
    var t := KindOf(r);
    if t == Flight || t == Hotel || t == Train then r.price.GetOr(0)
    else if t == Car then r.totalAmount.GetOr(0)
    else 0
  }

  /** The time field a record's type dates it by, "" when missing; None for an unknown type. */
  function TimeField(r: TravelRecord): Option<string> {
    var t := KindOf(r);
    if t == Flight || t == Train then Some(r.departTime.GetOr(""))
    else if t == Hotel then Some(r.checkInTime.GetOr(""))
    else if t == Car then Some(r.pickupTime.GetOr(""))
    else None
  }

  /** The date part of a time text: the text before the first space, else its first ten characters, else "". */
  function DatePart(t: string): (d: string)
    ensures StartsWith(t, d) && Lacks(d, ' ')
    ensures !Lacks(t, ' ') ==> StartsWith(t, d + " ")
    ensures Lacks(t, ' ') ==> |d| == (if |t| >= 10 then 10 else 0)
  {
    if !Lacks(t, ' ') then
      var d := TextBefore(t, ' ');
      assert t[..|d| + 1] == d + " ";
      d
    else if |t| >= 10 then t[..10]
    else ""
  }

  /** Python `parse_date_from_record`. */
  function ParseDate(r: TravelRecord): (d: string)
    ensures TimeField(r).None? ==> d == ""
    ensures TimeField(r).Some? ==> d == DatePart(TimeField(r).value)
  {
    match TimeField(r)
    case None => ""
    case Some(t) => DatePart(t)
  }

  /** Python `get_employee_name`: the passenger of a flight or car ride, the employee of anything else, "" when missing. */
  function EmployeeName(r: TravelRecord): (n: string)
    ensures KindOf(r) in {Flight, Car} ==> n == r.passenger.GetOr("")
    ensures KindOf(r) !in {Flight, Car} ==> n == r.employee.GetOr("")
  {
    var t := KindOf(r);
    if t == Flight || t == Car then r.passenger.GetOr("") else r.employee.GetOr("")
  }

  // ------------------------------------------------------------ grouping keys

  const UnknownDept: string := "未知部门"
  const UnknownType: string := "unknown"
  const UnknownMonth: string := "未知月份"
  const UnknownEmployee: string := "未知员工"
  const UnknownSource: string := "未知来源"

  /** The five dimensions the summary and the indexes group by. */
  datatype Dim = ByDept | ByType | ByMonth | ByEmployee | BySource

  /** The key a record is grouped under, the same in the summary and the indexes. */
  function KeyOf(dim: Dim, r: TravelRecord): string {
    match dim
    case ByDept => r.deptLevel1.GetOr(UnknownDept)
    case ByType => r.kind.GetOr(UnknownType)
    case ByMonth =>
      var d := ParseDate(r);
      if |d| >= 7 then d[..7] else UnknownMonth
    case ByEmployee =>
      var n := EmployeeName(r);
      if n == "" then UnknownEmployee else n
    case BySource => r.source.GetOr(UnknownSource)
  }

  /**
   * The department is unknown only when the key is missing (an empty one
   * stays ""); an empty employee name is unknown, so no employee key is
   * empty; a month key is the first seven characters of the date, or unknown.
   */
  lemma GroupingKeys(r: TravelRecord)
    ensures r.deptLevel1.None? <==> KeyOf(ByDept, r) == UnknownDept && r.deptLevel1 != Some(UnknownDept)
    ensures r.deptLevel1 == Some("") ==> KeyOf(ByDept, r) == ""
    ensures KeyOf(ByEmployee, r) != "" && (EmployeeName(r) == "" <==> KeyOf(ByEmployee, r) == UnknownEmployee && EmployeeName(r) != UnknownEmployee)
    ensures KeyOf(ByMonth, r) == UnknownMonth || (|KeyOf(ByMonth, r)| == 7 && StartsWith(ParseDate(r), KeyOf(ByMonth, r)))
  {
  }

  /** `YYYY-MM-DD`, the date format the extractors write. */
  function IsoDate(d: Date): (s: string)
    requires Keyable(d) && 0 <= d.day
    ensures |s| == 10
  {
    MonthKey(d) + "-" + Fixed(d.day, 2)
  }

  /** A record timed `YYYY-MM-DD hh:mm:ss` is grouped under that day's month key. */
  lemma TimedRecordMonth(r: TravelRecord, d: Date, clock: string)
    requires Keyable(d) && 0 <= d.day
    requires TimeField(r) == Some(IsoDate(d) + " " + clock)
    ensures KeyOf(ByMonth, r) == MonthKey(d)
  {
    var t := IsoDate(d) + " " + clock;
    var s := IsoDate(d);
    assert Lacks(s, ' ') by {
      assert s == Fixed(d.year, 4) + "-" + Fixed(d.month, 2) + "-" + Fixed(d.day, 2);
      assert forall i :: 0 <= i < |s| ==> s[i] == '-' || IsDigit(s[i]);
    }
    IndexOfAt(t, ' ', 10);
    assert t[..10] == s;
    assert ParseDate(r) == s;
    assert s[..7] == MonthKey(d);
  }

  /** A record of an unknown type, or with no time, is grouped under the unknown month. */
  lemma UntimedRecordMonth(r: TravelRecord)
    requires TimeField(r).None? || TimeField(r) == Some("")
    ensures KeyOf(ByMonth, r) == UnknownMonth
  {
  }

  // ------------------------------------------------------------ record positions

  /** The positions of the records grouped under `k`, in increasing order. */
  function Indices(records: seq<TravelRecord>, dim: Dim, k: string): (ps: seq<nat>)
    ensures forall p: int :: p in ps <==> 0 <= p < |records| && KeyOf(dim, records[p]) == k
    ensures forall a :: 0 <= a < |ps| ==> ps[a] < |records|
    ensures forall a, b :: 0 <= a < b < |ps| ==> ps[a] < ps[b]
  {
    if records == [] then []
    else
      var n := |records| - 1;
      var init := Indices(records[..n], dim, k);
      assert forall p :: 0 <= p < n ==> records[..n][p] == records[p];
      init + (if KeyOf(dim, records[n]) == k then [n] else [])
  }

  /** The sum of the amounts of the records grouped under `k`. */
  function AmountWith(records: seq<TravelRecord>, dim: Dim, k: string): int {
    if records == [] then 0
    else
      var n := |records| - 1;
      AmountWith(records[..n], dim, k) + (if KeyOf(dim, records[n]) == k then ParseAmount(records[n]) else 0)
  }

  /** The sum of all amounts. */
  function TotalAmount(records: seq<TravelRecord>): int {
    if records == [] then 0 else TotalAmount(records[..|records| - 1]) + ParseAmount(records[|records| - 1])
  }

  lemma {:induction false} AmountWithNone(records: seq<TravelRecord>, dim: Dim, k: string)
    requires Indices(records, dim, k) == []
    ensures AmountWith(records, dim, k) == 0
  {
    if records != [] {
      var n := |records| - 1;
      assert n !in Indices(records, dim, k);
      assert forall p :: p in Indices(records[..n], dim, k) ==> p in Indices(records, dim, k);
      assert Indices(records[..n], dim, k) == [];
      AmountWithNone(records[..n], dim, k);
    }
  }

  // ------------------------------------------------------------ tallies

  /** The amount and count of one group. */
  datatype Tally = Tally(amount: int, count: nat)

  function Plus(a: Tally, b: Tally): Tally { Tally(a.amount + b.amount, a.count + b.count) }

  /** One record of amount `a` counted under `k`, a new key starting from zero. */
  function AddTo(d: Dict<string, Tally>, k: string, a: int): Dict<string, Tally> {
    Put(d, k, Counted(Get(d, k), a))
  }

  /** A group's tally after one more record of amount `a`. */
  function Counted(t: Option<Tally>, a: int): Tally {
    match t
    case None => Tally(a, 1)
    case Some(t) => Tally(t.amount + a, t.count + 1)
  }

  /** The groups of one dimension, keys in order of first occurrence. */
  function Tallies(records: seq<TravelRecord>, dim: Dim): Dict<string, Tally> {
    if records == [] then []
    else
      var n := |records| - 1;
      AddTo(Tallies(records[..n], dim), KeyOf(dim, records[n]), ParseAmount(records[n]))
  }

  /** The positions and amounts of `records` and its front agree on every key but the last record's. */
  lemma StepIndices(records: seq<TravelRecord>, dim: Dim, k: string)
    requires records != []
    ensures var n := |records| - 1;
      Indices(records, dim, k) == Indices(records[..n], dim, k) + (if KeyOf(dim, records[n]) == k then [n] else []) &&
      AmountWith(records, dim, k) == AmountWith(records[..n], dim, k) + (if KeyOf(dim, records[n]) == k then ParseAmount(records[n]) else 0)
  {
  }

  /** Counting a record keeps every key and adds its own. */
  lemma AddToKeys(d: Dict<string, Tally>, k: string, a: int)
    ensures k in Keys(AddTo(d, k, a)) && forall q :: q in Keys(d) ==> q in Keys(AddTo(d, k, a))
  {
    PutKeys(d, k, Counted(Get(d, k), a));
  }

  /** No record before the last is grouped under `k`: nothing is counted under it. */
  lemma NoneGrouped(records: seq<TravelRecord>, dim: Dim, k: string)
    requires forall i :: 0 <= i < |records| ==> KeyOf(dim, records[i]) != k
    ensures Indices(records, dim, k) == [] && AmountWith(records, dim, k) == 0
  {
    AmountWithNone(records, dim, k);
  }

  /** The groups' keys are distinct. */
  lemma {:induction false} TalliesDistinct(records: seq<TravelRecord>, dim: Dim)
    ensures DistinctKeys(Tallies(records, dim))
  {
    if records != [] {
      var n := |records| - 1;
      TalliesDistinct(records[..n], dim);
      var d := Tallies(records[..n], dim);
      var k := KeyOf(dim, records[n]);
      PutDistinct(d, k, Counted(Get(d, k), ParseAmount(records[n])));
    }
  }

  /** Every record's key has a group, and every group's key is some record's. */
  lemma {:induction false} TalliesKeys(records: seq<TravelRecord>, dim: Dim)
    ensures forall i :: 0 <= i < |records| ==> KeyOf(dim, records[i]) in Keys(Tallies(records, dim))
  {
    if records != [] {
      var n := |records| - 1;
      var init := records[..n];
      TalliesKeys(init, dim);
      var d := Tallies(init, dim);
      AddToKeys(d, KeyOf(dim, records[n]), ParseAmount(records[n]));
      var ks := Keys(Tallies(records, dim));
      assert ks == Keys(AddTo(d, KeyOf(dim, records[n]), ParseAmount(records[n])));
      forall i | 0 <= i < |records| ensures KeyOf(dim, records[i]) in ks {
        if i < n {
          assert init[i] == records[i];
        }
      }
    }
  }

  predicate TallyOf(records: seq<TravelRecord>, dim: Dim, e: (string, Tally)) {
    e.1 == Tally(AmountWith(records, dim, e.0), |Indices(records, dim, e.0)|) && e.1.count > 0
  }

  /** A key that no record is grouped under has no positions and no amount. */
  lemma TalliesAbsent(init: seq<TravelRecord>, dim: Dim, k: string)
    requires k !in Keys(Tallies(init, dim))
    ensures Indices(init, dim, k) == [] && AmountWith(init, dim, k) == 0
  {
    TalliesKeys(init, dim);
    NoneGrouped(init, dim, k);
  }

  /** Each group's tally is the sum of the amounts and the number of the records grouped under its key. */
  lemma {:induction false} TalliesValues(records: seq<TravelRecord>, dim: Dim)
    ensures forall e :: e in Tallies(records, dim) ==> TallyOf(records, dim, e)
  {
    if records != [] {
      var n := |records| - 1;
      var init := records[..n];
      TalliesValues(init, dim);
      TalliesDistinct(init, dim);
      var d := Tallies(init, dim);
      var k := KeyOf(dim, records[n]);
      var v := Counted(Get(d, k), ParseAmount(records[n]));
      PutMembers(d, k, v);
      StepIndices(records, dim, k);
      if Get(d, k).None? {
        TalliesAbsent(init, dim, k);
      } else {
        var i := GetSome(d, k);
        assert d[i] in d;
      }
      assert TallyOf(records, dim, (k, v));
      forall e | e in Tallies(records, dim)
        ensures TallyOf(records, dim, e)
      {
        if e.0 != k {
          StepIndices(records, dim, e.0);
          assert TallyOf(init, dim, e);
        }
      }
    }
  }

  /**
   * Each group's tally is the sum of the amounts and the number of the
   * records grouped under its key; the keys are distinct and every record's
   * key has a group.
   */
  lemma TalliesEntries(records: seq<TravelRecord>, dim: Dim)
    ensures DistinctKeys(Tallies(records, dim))
    ensures forall e :: e in Tallies(records, dim) ==>
      e.1 == Tally(AmountWith(records, dim, e.0), |Indices(records, dim, e.0)|) && e.1.count > 0
    ensures forall i :: 0 <= i < |records| ==> KeyOf(dim, records[i]) in Keys(Tallies(records, dim))
  {
    TalliesDistinct(records, dim);
    TalliesValues(records, dim);
    TalliesKeys(records, dim);
  }

  /** The sum of the tallies of a dictionary. */
  function Total(d: Dict<string, Tally>): Tally {
    if d == [] then Tally(0, 0) else Plus(d[0].1, Total(d[1..]))
  }

  /** Replacing a value changes the total by the difference. */
  lemma {:induction false} TotalPut(d: Dict<string, Tally>, k: string, v: Tally)
    ensures Plus(Total(Put(d, k, v)), Get(d, k).GetOr(Tally(0, 0))) == Plus(Total(d), v)
  {
    if d != [] && d[0].0 != k {
      TotalPut(d[1..], k, v);
      assert Put(d, k, v) == [d[0]] + Put(d[1..], k, v);
      assert (([d[0]] + Put(d[1..], k, v))[1..]) == Put(d[1..], k, v);
    } else if d != [] {
      assert Put(d, k, v) == [(k, v)] + d[1..];
      assert ([(k, v)] + d[1..])[1..] == d[1..];
    }
  }

  /** The groups of a dimension together hold every record and every amount. */
  lemma {:induction false} TalliesTotal(records: seq<TravelRecord>, dim: Dim)
    ensures Total(Tallies(records, dim)) == Tally(TotalAmount(records), |records|)
  {
    if records != [] {
      var n := |records| - 1;
      TalliesTotal(records[..n], dim);
      var d := Tallies(records[..n], dim);
      var k := KeyOf(dim, records[n]);
      TotalPut(d, k, Counted(Get(d, k), ParseAmount(records[n])));
    }
  }

  lemma {:induction false} TotalAppend(a: Dict<string, Tally>, b: Dict<string, Tally>)
    ensures Total(a + b) == Plus(Total(a), Total(b))
  {
    if a == [] {
      assert a + b == b;
    } else {
      var ab := a + b;
      assert ab[0] == a[0];
      assert ab[1..] == a[1..] + b;
      TotalAppend(a[1..], b);
    }
  }

  /** Reordering the groups keeps their total. */
  lemma {:induction false} TotalPermutation(a: Dict<string, Tally>, b: Dict<string, Tally>)
    requires multiset(a) == multiset(b)
    ensures Total(a) == Total(b)
    decreases |a|
  {
    if a != [] {
      assert a[0] in multiset(b);
      var j :| 0 <= j < |b| && b[j] == a[0];
      var rest := b[..j] + b[j + 1..];
      MultisetRemove(a, b, j);
      TotalPermutation(a[1..], rest);
      TotalAppend(b[..j], [b[j]] + b[j + 1..]);
      TotalAppend([b[j]], b[j + 1..]);
      TotalAppend(b[..j], b[j + 1..]);
      assert ([b[j]] + b[j + 1..])[1..] == b[j + 1..];
      assert b[..j] + ([b[j]] + b[j + 1..]) == b;
    } else {
      assert |b| == |multiset(b)| == 0;
    }
  }

  // ------------------------------------------------------------ summary

  function AmountOf(e: (string, Tally)): int { e.1.amount }

  function AtLeast(a: int, b: int): bool { a >= b }

  /** Python `sorted(d.items(), key=amount, reverse=True)`: stable, largest amount first. */
  function Descending(d: Dict<string, Tally>): Dict<string, Tally> {
    SortBy(d, AmountOf, AtLeast)
  }

  function EntryKey<V>(e: (string, V)): string { e.0 }

  /** Python `sorted(d.items())` on distinct keys: ascending by key. */
  function Ascending<V>(d: Dict<string, V>): Dict<string, V> {
    SortBy(d, EntryKey, Le)
  }

  /** At most this many employees are listed. */
  const EmployeeLimit: nat := 100

  function Take<T>(s: seq<T>, n: nat): seq<T> {
    if |s| <= n then s else s[..n]
  }

  datatype Summary = Summary(
    totalAmount: int, totalRecords: nat,
    byDept: Dict<string, Tally>, byType: Dict<string, Tally>, byMonth: Dict<string, Tally>,
    byEmployee: Dict<string, Tally>, bySource: Dict<string, Tally>)
  {
    function Group(dim: Dim): Dict<string, Tally> {
      match dim
      case ByDept => byDept
      case ByType => byType
      case ByMonth => byMonth
      case ByEmployee => byEmployee
      case BySource => bySource
    }
  }

  /** Python `build_summary`, before rounding. */
  function SummaryOf(records: seq<TravelRecord>): Summary {
    Summary(TotalAmount(records), |records|,
      Descending(Tallies(records, ByDept)), Descending(Tallies(records, ByType)),
      Ascending(Tallies(records, ByMonth)),
      Take(Descending(Tallies(records, ByEmployee)), EmployeeLimit),
      Descending(Tallies(records, BySource)))
  }

  /** Sorting by key lists distinct keys in strictly ascending order, still distinct. */
  lemma AscendingStrict<V>(d: Dict<string, V>)
    requires DistinctKeys(d)
    ensures DistinctBy(Ascending(d), EntryKey)
    ensures forall i, j :: 0 <= i < j < |Ascending(d)| ==> Lt(Ascending(d)[i].0, Ascending(d)[j].0)
  {
    var g := Ascending(d);
    assert DistinctBy(d, EntryKey);
    SortByDistinct(d, EntryKey, Le, EntryKey);
    assert TotalPreorder(Le) by { LeTotalOrder(); }
    SortBySorted(d, EntryKey, Le);
    forall i, j | 0 <= i < j < |g| ensures Lt(g[i].0, g[j].0) {
      assert Le(EntryKey(g[i]), EntryKey(g[j]));
    }
  }

  /** Amounts never increase along the list. */
  predicate NonIncreasing(g: Dict<string, Tally>) {
    forall i, j :: 0 <= i < j < |g| ==> g[i].1.amount >= g[j].1.amount
  }

  lemma TakeNonIncreasing(g: Dict<string, Tally>, n: nat)
    requires NonIncreasing(g)
    ensures NonIncreasing(Take(g, n))
  {
  }

  /** Cutting a list of non-increasing amounts leaves out no amount larger than one kept. */
  lemma TakeLargest(g: Dict<string, Tally>, n: nat)
    requires NonIncreasing(g)
    ensures forall e, f :: e in Take(g, n) && f in g && f !in Take(g, n) ==> f.1.amount <= e.1.amount
  {
    forall e, f | e in Take(g, n) && f in g && f !in Take(g, n)
      ensures f.1.amount <= e.1.amount
    {
      var t := Take(g, n);
      var ie :| 0 <= ie < |t| && t[ie] == e;
      var jf :| 0 <= jf < |g| && g[jf] == f;
      assert g[ie] == e;
      assert forall q :: 0 <= q < |t| ==> t[q] == g[q];
    }
  }

  /** Sorting by decreasing amount: amounts never increase, groups of equal amount keep their order, distinct keys stay distinct. */
  lemma DescendingOrder(d: Dict<string, Tally>)
    ensures NonIncreasing(Descending(d))
    ensures forall x :: Filter(Descending(d), AmountOf, x) == Filter(d, AmountOf, x)
    ensures DistinctKeys(d) ==> DistinctBy(Descending(d), EntryKey)
  {
    assert TotalPreorder(AtLeast);
    SortBySorted(d, AmountOf, AtLeast);
    forall x ensures Filter(Descending(d), AmountOf, x) == Filter(d, AmountOf, x) {
      SortByStable(d, AmountOf, AtLeast, x);
    }
    if DistinctKeys(d) {
      assert DistinctBy(d, EntryKey);
      SortByDistinct(d, AmountOf, AtLeast, EntryKey);
    }
  }

  /** A dimension's groups as listed, before truncation, and the groups they reorder. */
  lemma SortedGroups(records: seq<TravelRecord>, dim: Dim) returns (sorted: Dict<string, Tally>)
    ensures sorted == (if dim == ByMonth then Ascending(Tallies(records, dim)) else Descending(Tallies(records, dim)))
    ensures multiset(sorted) == multiset(Tallies(records, dim))
    ensures SummaryOf(records).Group(dim) == (if dim == ByEmployee then Take(sorted, EmployeeLimit) else sorted)
  {
    sorted := if dim == ByMonth then Ascending(Tallies(records, dim)) else Descending(Tallies(records, dim));
  }

  /**
   * `totalRecords` is the number of records, and every dimension except the
   * truncated employees accounts for every record and every cent; the
   * employees listed account for no more.
   */
  lemma SummaryTotals(records: seq<TravelRecord>, dim: Dim)
    ensures SummaryOf(records).totalRecords == |records|
    ensures dim != ByEmployee ==> Total(SummaryOf(records).Group(dim)) == Tally(SummaryOf(records).totalAmount, |records|)
    ensures dim == ByEmployee ==> Total(SummaryOf(records).Group(dim)).count <= |records|
  {
    var sorted := SortedGroups(records, dim);
    TalliesTotal(records, dim);
    TotalPermutation(sorted, Tallies(records, dim));
    if dim == ByEmployee {
      TakeCount(sorted, EmployeeLimit);
    }
  }

  /** Keeping the first `n` groups keeps no more records than all of them. */
  lemma TakeCount(d: Dict<string, Tally>, n: nat)
    ensures Total(Take(d, n)).count <= Total(d).count
  {
    if |d| > n {
      assert d == d[..n] + d[n..];
      TotalAppend(d[..n], d[n..]);
    }
  }

  /** Every listed group holds the amount and number of the records grouped under its key, and no key is listed twice. */
  lemma SummaryEntries(records: seq<TravelRecord>, dim: Dim)
    ensures forall e :: e in SummaryOf(records).Group(dim) ==> TallyOf(records, dim, e)
    ensures DistinctBy(SummaryOf(records).Group(dim), EntryKey)
  {
    SummaryMembers(records, dim);
    SummaryDistinct(records, dim);
  }

  /** Every entry listed is the tally of its key. */
  lemma SummaryMembers(records: seq<TravelRecord>, dim: Dim)
    ensures forall e :: e in SummaryOf(records).Group(dim) ==> TallyOf(records, dim, e)
  {
    var sorted := SortedGroups(records, dim);
    var d := Tallies(records, dim);
    TalliesValues(records, dim);
    var g := SummaryOf(records).Group(dim);
    forall e | e in g
      ensures TallyOf(records, dim, e)
    {
      assert e in sorted;
      assert e in multiset(d);
    }
  }

  /** No key is listed twice. */
  lemma SummaryDistinct(records: seq<TravelRecord>, dim: Dim)
    ensures DistinctBy(SummaryOf(records).Group(dim), EntryKey)
  {
    var sorted := SortedGroups(records, dim);
    TalliesDistinct(records, dim);
    if dim == ByMonth {
      AscendingStrict(Tallies(records, dim));
    } else {
      DescendingOrder(Tallies(records, dim));
    }
  }

  /** Every record's key is listed, in every dimension but the truncated employees. */
  lemma SummaryCovers(records: seq<TravelRecord>, dim: Dim, i: nat)
    requires dim != ByEmployee && i < |records|
    ensures KeyOf(dim, records[i]) in Keys(SummaryOf(records).Group(dim))
  {
    var sorted := SortedGroups(records, dim);
    TalliesKeys(records, dim);
    KeyInPermutation(Tallies(records, dim), sorted, KeyOf(dim, records[i]));
  }

  /**
   * Departments, types, employees and sources are listed by decreasing amount;
   * the first three but employees keep groups of equal amount in their order
   * of first occurrence.
   */
  lemma SummaryDescending(records: seq<TravelRecord>, dim: Dim)
    requires dim != ByMonth
    ensures NonIncreasing(SummaryOf(records).Group(dim))
    ensures dim != ByEmployee ==> forall x :: Filter(SummaryOf(records).Group(dim), AmountOf, x) == Filter(Tallies(records, dim), AmountOf, x)
  {
    var sorted := SortedGroups(records, dim);
    DescendingOrder(Tallies(records, dim));
    if dim == ByEmployee {
      TakeNonIncreasing(sorted, EmployeeLimit);
    }
  }

  /** Months are listed by strictly increasing key. */
  lemma MonthsAscending(records: seq<TravelRecord>)
    ensures forall i, j :: 0 <= i < j < |SummaryOf(records).byMonth| ==>
      Lt(SummaryOf(records).byMonth[i].0, SummaryOf(records).byMonth[j].0)
  {
    TalliesDistinct(records, ByMonth);
    AscendingStrict(Tallies(records, ByMonth));
  }

  /** The employees listed are the 100 with the largest amounts: no group left out has a larger amount than one listed. */
  lemma EmployeesTruncated(records: seq<TravelRecord>)
    ensures var g := SummaryOf(records).byEmployee; var d := Tallies(records, ByEmployee);
      |g| == (if |d| <= EmployeeLimit then |d| else EmployeeLimit) &&
      forall e, f :: e in g && f in d && f !in g ==> f.1.amount <= e.1.amount
  {
    var d := Tallies(records, ByEmployee);
    var sorted := SortedGroups(records, ByEmployee);
    DescendingOrder(d);
    TakeLargest(sorted, EmployeeLimit);
    forall f | f in d ensures f in sorted {
      assert f in multiset(d);
    }
  }

  /** One more record: each running total and grouping takes it in. */
  lemma SummaryStep(records: seq<TravelRecord>, i: nat)
    requires i < |records|
    ensures TotalAmount(records[..i + 1]) == TotalAmount(records[..i]) + ParseAmount(records[i])
    ensures forall dim ::
      Tallies(records[..i + 1], dim) == AddTo(Tallies(records[..i], dim), KeyOf(dim, records[i]), ParseAmount(records[i]))
  {
    assert records[..i + 1][..i] == records[..i];
  }

  /** Python `build_summary`: one pass over the records updating the total and five groupings. */
  method BuildSummary(records: seq<TravelRecord>) returns (s: Summary)
    ensures s == SummaryOf(records)
  {
    var total := 0;
    var dept: Dict<string, Tally> := [];
    var kind: Dict<string, Tally> := [];
    var month: Dict<string, Tally> := [];
    var employee: Dict<string, Tally> := [];
    var source: Dict<string, Tally> := [];
    for i := 0 to |records|
      invariant total == TotalAmount(records[..i])
      invariant dept == Tallies(records[..i], ByDept) && kind == Tallies(records[..i], ByType)
      invariant month == Tallies(records[..i], ByMonth) && employee == Tallies(records[..i], ByEmployee)
      invariant source == Tallies(records[..i], BySource)
    {
      SummaryStep(records, i);
      var r := records[i];
      var amount := ParseAmount(r);
      total := total + amount;
      dept := AddTo(dept, KeyOf(ByDept, r), amount);
      kind := AddTo(kind, KeyOf(ByType, r), amount);
      month := AddTo(month, KeyOf(ByMonth, r), amount);
      employee := AddTo(employee, KeyOf(ByEmployee, r), amount);
      source := AddTo(source, KeyOf(BySource, r), amount);
    }
    assert records[..|records|] == records;
    s := Summary(total, |records|, Descending(dept), Descending(kind), Ascending(month),
      Take(Descending(employee), EmployeeLimit), Descending(source));
  }

  // ------------------------------------------------------------ indexes

  /** Record position `i` appended to the list under `k`, a new key starting a list. */
  function AppendAt(d: Dict<string, seq<nat>>, k: string, i: nat): Dict<string, seq<nat>> {
    Put(d, k, Appended(Get(d, k), i))
  }

  function Appended(ps: Option<seq<nat>>, i: nat): seq<nat> {
    match ps
    case None => [i]
    case Some(ps) => ps + [i]
  }

  /** The position lists of one dimension, keys in order of first occurrence. */
  function Positions(records: seq<TravelRecord>, dim: Dim): Dict<string, seq<nat>> {
    if records == [] then []
    else
      var n := |records| - 1;
      AppendAt(Positions(records[..n], dim), KeyOf(dim, records[n]), n)
  }

  lemma {:induction false} PositionsDistinct(records: seq<TravelRecord>, dim: Dim)
    ensures DistinctKeys(Positions(records, dim))
  {
    if records != [] {
      var n := |records| - 1;
      PositionsDistinct(records[..n], dim);
      var d := Positions(records[..n], dim);
      var k := KeyOf(dim, records[n]);
      PutDistinct(d, k, Appended(Get(d, k), n));
    }
  }

  lemma AppendAtKeys(d: Dict<string, seq<nat>>, k: string, i: nat)
    ensures k in Keys(AppendAt(d, k, i)) && forall q :: q in Keys(d) ==> q in Keys(AppendAt(d, k, i))
  {
    PutKeys(d, k, Appended(Get(d, k), i));
  }

  lemma {:induction false} PositionsKeys(records: seq<TravelRecord>, dim: Dim)
    ensures forall i :: 0 <= i < |records| ==> KeyOf(dim, records[i]) in Keys(Positions(records, dim))
  {
    if records != [] {
      var n := |records| - 1;
      var init := records[..n];
      PositionsKeys(init, dim);
      var d, k := Positions(init, dim), KeyOf(dim, records[n]);
      AppendAtKeys(d, k, n);
      var ks := Keys(Positions(records, dim));
      assert ks == Keys(AppendAt(d, k, n));
      forall i | 0 <= i < |records| ensures KeyOf(dim, records[i]) in ks {
        if i < n {
          assert init[i] == records[i];
          assert KeyOf(dim, init[i]) in Keys(d);
        }
      }
    }
  }

  predicate ListOf(records: seq<TravelRecord>, dim: Dim, e: (string, seq<nat>)) {
    e.1 == Indices(records, dim, e.0) && e.1 != []
  }

  /** A key that no record is grouped under has no positions. */
  lemma PositionsAbsent(init: seq<TravelRecord>, dim: Dim, k: string)
    requires k !in Keys(Positions(init, dim))
    ensures Indices(init, dim, k) == []
  {
    PositionsKeys(init, dim);
    NoneGrouped(init, dim, k);
  }

  /** Every entry of `d` lists the positions of its key. */
  predicate Listing(records: seq<TravelRecord>, dim: Dim, d: Dict<string, seq<nat>>) {
    forall e :: e in d ==> ListOf(records, dim, e)
  }

  /** The last record's key gets the list of its positions. */
  lemma PositionsLast(records: seq<TravelRecord>, dim: Dim)
    requires records != []
    requires Listing(records[..|records| - 1], dim, Positions(records[..|records| - 1], dim))
    ensures var n := |records| - 1; var d := Positions(records[..n], dim); var k := KeyOf(dim, records[n]);
      ListOf(records, dim, (k, Appended(Get(d, k), n)))
  {
    var n := |records| - 1;
    var init := records[..n];
    var d := Positions(init, dim);
    var k := KeyOf(dim, records[n]);
    StepIndices(records, dim, k);
    if Get(d, k).None? {
      PositionsAbsent(init, dim, k);
    } else {
      var i := GetSome(d, k);
      assert d[i] in d;
    }
  }

  /** Each key's list holds exactly the positions of the records grouped under it. */
  lemma {:induction false} PositionsValues(records: seq<TravelRecord>, dim: Dim)
    ensures Listing(records, dim, Positions(records, dim))
  {
    if records != [] {
      var n := |records| - 1;
      var init := records[..n];
      PositionsValues(init, dim);
      PositionsDistinct(init, dim);
      var d := Positions(init, dim);
      var k := KeyOf(dim, records[n]);
      var v := Appended(Get(d, k), n);
      PutMembers(d, k, v);
      PositionsLast(records, dim);
      forall e | e in Positions(records, dim)
        ensures ListOf(records, dim, e)
      {
        if e.0 != k {
          StepIndices(records, dim, e.0);
          assert ListOf(init, dim, e);
        }
      }
    }
  }

  datatype Indexes = Indexes(
    byDept: Dict<string, seq<nat>>, byType: Dict<string, seq<nat>>, byMonth: Dict<string, seq<nat>>,
    byEmployee: Dict<string, seq<nat>>, bySource: Dict<string, seq<nat>>)
  {
    function Group(dim: Dim): Dict<string, seq<nat>> {
      match dim
      case ByDept => byDept
      case ByType => byType
      case ByMonth => byMonth
      case ByEmployee => byEmployee
      case BySource => bySource
    }
  }

  /** Python `build_indexes`: every dimension's lists, keys ascending. */
  function IndexesOf(records: seq<TravelRecord>): Indexes {
    Indexes(Ascending(Positions(records, ByDept)), Ascending(Positions(records, ByType)),
      Ascending(Positions(records, ByMonth)), Ascending(Positions(records, ByEmployee)),
      Ascending(Positions(records, BySource)))
  }

  /** The listed lists are the position lists, keys strictly ascending. */
  lemma IndexLists(records: seq<TravelRecord>, dim: Dim)
    ensures forall e :: e in IndexesOf(records).Group(dim) ==> ListOf(records, dim, e)
    ensures forall i, j :: 0 <= i < j < |IndexesOf(records).Group(dim)| ==>
      Lt(IndexesOf(records).Group(dim)[i].0, IndexesOf(records).Group(dim)[j].0)
  {
    var d := Positions(records, dim);
    var g := IndexesOf(records).Group(dim);
    assert g == Ascending(d);
    PositionsDistinct(records, dim);
    PositionsValues(records, dim);
    AscendingStrict(d);
    forall e | e in g ensures ListOf(records, dim, e) {
      assert e in multiset(d);
    }
  }

  /** Every record position is listed, under its record's key. */
  lemma IndexCovers(records: seq<TravelRecord>, dim: Dim, p: nat)
    requires p < |records|
    ensures exists e :: e in IndexesOf(records).Group(dim) && e.0 == KeyOf(dim, records[p]) && p in e.1
  {
    var d := Positions(records, dim);
    var g := IndexesOf(records).Group(dim);
    assert g == Ascending(d);
    PositionsValues(records, dim);
    PositionsKeys(records, dim);
    KeysAt(d);
    var m :| 0 <= m < |d| && d[m].0 == KeyOf(dim, records[p]);
    assert ListOf(records, dim, d[m]);
    assert d[m] in multiset(g);
    assert d[m] in g && p in d[m].1;
  }

  /**
   * For each dimension the lists partition the record positions: a position
   * is listed only under its own record's key (and `IndexCovers` lists every
   * position); keys are listed once, in strictly ascending order; each list
   * is strictly increasing.
   */
  lemma IndexPartition(records: seq<TravelRecord>, dim: Dim)
    ensures forall e, p :: e in IndexesOf(records).Group(dim) && p in e.1 ==> 0 <= p < |records| && KeyOf(dim, records[p]) == e.0
    ensures forall e :: e in IndexesOf(records).Group(dim) ==> forall a, b :: 0 <= a < b < |e.1| ==> e.1[a] < e.1[b]
    ensures forall i, j :: 0 <= i < j < |IndexesOf(records).Group(dim)| ==>
      Lt(IndexesOf(records).Group(dim)[i].0, IndexesOf(records).Group(dim)[j].0)
  {
    IndexLists(records, dim);
  }

  /** Every key's list is as long as the count the summary gives the same key. */
  lemma IndexMatchesSummary(records: seq<TravelRecord>, dim: Dim, e: (string, seq<nat>), t: (string, Tally))
    requires e in IndexesOf(records).Group(dim) && t in SummaryOf(records).Group(dim) && e.0 == t.0
    ensures |e.1| == t.1.count
  {
    SummaryEntries(records, dim);
    IndexLists(records, dim);
    assert TallyOf(records, dim, t) && ListOf(records, dim, e);
  }

  /** Python `build_indexes`: one pass appending each position to its five lists. */
  lemma IndexesStep(records: seq<TravelRecord>, i: nat)
    requires i < |records|
    ensures forall dim :: Positions(records[..i + 1], dim) == AppendAt(Positions(records[..i], dim), KeyOf(dim, records[i]), i)
  {
    assert records[..i + 1][..i] == records[..i];
  }

  method BuildIndexes(records: seq<TravelRecord>) returns (ix: Indexes)
    ensures ix == IndexesOf(records)
  {
    var dept: Dict<string, seq<nat>> := [];
    var kind: Dict<string, seq<nat>> := [];
    var month: Dict<string, seq<nat>> := [];
    var employee: Dict<string, seq<nat>> := [];
    var source: Dict<string, seq<nat>> := [];
    for i := 0 to |records|
      invariant dept == Positions(records[..i], ByDept) && kind == Positions(records[..i], ByType)
      invariant month == Positions(records[..i], ByMonth) && employee == Positions(records[..i], ByEmployee)
      invariant source == Positions(records[..i], BySource)
    {
      IndexesStep(records, i);
      var r := records[i];
      dept := AppendAt(dept, KeyOf(ByDept, r), i);
      kind := AppendAt(kind, KeyOf(ByType, r), i);
      month := AppendAt(month, KeyOf(ByMonth, r), i);
      employee := AppendAt(employee, KeyOf(ByEmployee, r), i);
      source := AppendAt(source, KeyOf(BySource, r), i);
    }
    assert records[..|records|] == records;
    ix := Indexes(Ascending(dept), Ascending(kind), Ascending(month), Ascending(employee), Ascending(source));
  }

  // ------------------------------------------------------------ combining the monthly files

  /** What a monthly file holds; each key may be missing. */
  datatype MonthlyData = MonthlyData(records: Option<seq<TravelRecord>>, month: Option<string>, source: Option<string>)

  /** A file of the monthly directory: its name and its content, None when it cannot be read. */
  datatype MonthlyFile = MonthlyFile(name: string, content: Option<MonthlyData>)

  datatype Merged = Merged(records: seq<TravelRecord>, months: seq<string>, sources: seq<string>)

  /** Roster snapshots share the directory and are skipped by this prefix. */
  const RosterFilePrefix: string := "roster_"

  /** The files whose records are merged: readable, and not roster snapshots. */
  predicate Included(f: MonthlyFile) {
    !StartsWith(f.name, RosterFilePrefix) && f.content.Some?
  }

  /** The records of one file that merging takes: all of them when it is included, none otherwise. */
  function RecordsOf(f: MonthlyFile): seq<TravelRecord> {
    if Included(f) then f.content.value.records.GetOr([]) else []
  }

  /** The records of the included files, file after file. */
  function MergedRecords(files: seq<MonthlyFile>): (rs: seq<TravelRecord>)
    ensures forall r :: r in rs ==> exists f :: f in files && Included(f) && r in f.content.value.records.GetOr([])
    ensures forall f, r :: f in files && Included(f) && r in f.content.value.records.GetOr([]) ==> r in rs
  {
    if files == [] then []
    else
      var n := |files| - 1;
      assert files == files[..n] + [files[n]];
      MergedRecords(files[..n]) + RecordsOf(files[n])
  }

  /**
   * Merging keeps file order: the records of one list of files followed by
   * another are those of the first list, then those of the second.
   */
  lemma {:induction false} MergedInOrder(a: seq<MonthlyFile>, b: seq<MonthlyFile>)
    ensures MergedRecords(a + b) == MergedRecords(a) + MergedRecords(b)
    decreases |b|
  {
    if b == [] {
      assert a + b == a;
    } else {
      var n := |b| - 1;
      assert (a + b)[..|a| + n] == a + b[..n];
      MergedInOrder(a, b[..n]);
      assert MergedRecords(a + b) == MergedRecords(a + b[..n]) + RecordsOf(b[n]);
    }
  }

  /** A single file contributes all its records when included and none otherwise. */
  lemma MergedOne(f: MonthlyFile)
    ensures MergedRecords([f]) == (if Included(f) then f.content.value.records.GetOr([]) else [])
  {
  }

  /** The months named by the included files. */
  function MonthsOf(files: seq<MonthlyFile>): (ms: set<string>)
    ensures forall m :: m in ms <==> exists f :: f in files && Included(f) && f.content.value.month == Some(m)
  {
    if files == [] then {}
    else
      var n := |files| - 1;
      assert files == files[..n] + [files[n]];
      var f := files[n];
      MonthsOf(files[..n]) + (if Included(f) && f.content.value.month.Some? then {f.content.value.month.value} else {})
  }

  /** The sources named by the included files. */
  function SourcesOf(files: seq<MonthlyFile>): (ss: set<string>)
    ensures forall s :: s in ss <==> exists f :: f in files && Included(f) && f.content.value.source == Some(s)
  {
    if files == [] then {}
    else
      var n := |files| - 1;
      assert files == files[..n] + [files[n]];
      var f := files[n];
      SourcesOf(files[..n]) + (if Included(f) && f.content.value.source.Some? then {f.content.value.source.value} else {})
  }

  predicate LeastOf(m: string, s: set<string>) {
    m in s && forall y :: y in s ==> Le(m, y)
  }

  /** A finite non-empty set of strings has a least element. */
  lemma {:induction false} LeastExists(s: set<string>)
    requires s != {}
    ensures exists m :: LeastOf(m, s)
    decreases |s|
  {
    var x :| x in s;
    var rest := s - {x};
    if rest == {} {
      assert s == {x};
      assert LeastOf(x, s);
    } else {
      LeastExists(rest);
      var m :| LeastOf(m, rest);
      LtTotal(x, m);
      if Le(x, m) {
        forall y | y in s ensures Le(x, y) {
          if y != x { LeTransitive(x, m, y); }
        }
        assert LeastOf(x, s);
      } else {
        assert Le(m, x);
        forall y | y in s ensures Le(m, y) {
          if y != x { assert y in rest; }
        }
        assert LeastOf(m, s);
      }
    }
  }

  predicate StrictlyAscending(s: seq<string>) {
    forall i, j :: 0 <= i < j < |s| ==> Lt(s[i], s[j])
  }

  /** Every string already taken precedes every string still to take. */
  predicate Below(r: seq<string>, rest: set<string>) {
    forall i, y :: 0 <= i < |r| && y in rest ==> Lt(r[i], y)
  }

  /** Taking the least remaining string keeps the taken strings ascending and below the rest. */
  lemma AppendLeast(r: seq<string>, rest: set<string>, m: string)
    requires StrictlyAscending(r) && Below(r, rest)
    requires LeastOf(m, rest)
    ensures StrictlyAscending(r + [m]) && Below(r + [m], rest - {m})
  {
    var r' := r + [m];
    forall i, j | 0 <= i < j < |r'| ensures Lt(r'[i], r'[j]) {
      if j < |r| { assert r'[i] == r[i] && r'[j] == r[j]; } else { assert r'[i] == r[i]; }
    }
    forall i, y | 0 <= i < |r'| && y in rest - {m} ensures Lt(r'[i], y) {
      if i < |r| { assert r'[i] == r[i]; } else { assert Le(m, y); }
    }
  }

  /** Python `sorted(s)` for a set of strings, taking the least remaining element each time. */
  method SortedSet(s: set<string>) returns (r: seq<string>)
    ensures (set x | x in r) == s && StrictlyAscending(r)
  {
    r := [];
    var rest := s;
    while rest != {}
      invariant rest <= s
      invariant forall x :: x in s ==> (x in r <==> x !in rest)
      invariant forall x :: x in r ==> x in s
      invariant StrictlyAscending(r) && Below(r, rest)
      decreases |rest|
    {
      LeastExists(rest);
      var m :| LeastOf(m, rest);
      AppendLeast(r, rest, m);
      r := r + [m];
      rest := rest - {m};
    }
  }

  /**
   * Python `merge_monthly_data`, from the list of files on: the records of
   * every readable non-roster file in order, and the sorted months and
   * sources those files name.
   */
  method MergeMonthlyData(files: seq<MonthlyFile>) returns (merged: Merged)
    ensures merged.records == MergedRecords(files)
    ensures (set m | m in merged.months) == MonthsOf(files) && StrictlyAscending(merged.months)
    ensures (set s | s in merged.sources) == SourcesOf(files) && StrictlyAscending(merged.sources)
  {
    var records: seq<TravelRecord> := [];
    var months: set<string> := {};
    var sources: set<string> := {};
    for i := 0 to |files|
      invariant records == MergedRecords(files[..i])
      invariant months == MonthsOf(files[..i]) && sources == SourcesOf(files[..i])
    {
      assert files[..i + 1][..i] == files[..i];
      var f := files[i];
      if !StartsWith(f.name, RosterFilePrefix) && f.content.Some? {
        var data := f.content.value;
        records := records + data.records.GetOr([]);
        if data.month.Some? {
          months := months + {data.month.value};
        }
        if data.source.Some? {
          sources := sources + {data.source.value};
        }
      }
    }
    assert files[..|files|] == files;
    var sortedMonths := SortedSet(months);
    var sortedSources := SortedSet(sources);
    merged := Merged(records, sortedMonths, sortedSources);
  }
}
