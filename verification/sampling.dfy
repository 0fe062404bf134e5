/**
 * The sampling behind the lightweight report: the merged records are grouped
 * by type, each group is sorted latest first and cut to a limit, and the
 * groups are concatenated in the order in which their types first occur.
 * Statistics and metadata pass through unchanged.
 */
module Sampling {
  import opened Wrappers
  import opened Text
  import opened Dicts
  import opened Sorting
  import opened MergeData

  /** The merged data file; each key may be missing. */
  datatype Dataset = Dataset(
    records: Option<seq<TravelRecord>>, summary: Option<Summary>,
    lastUpdate: Option<string>, months: Option<seq<string>>)

  /** The sampled data file; a `summary` of None is the empty dictionary. */
  datatype Sample = Sample(
    lastUpdate: Option<string>, months: seq<string>, summary: Option<Summary>,
    records: seq<TravelRecord>, isSample: bool, totalRecords: nat, sampledRecords: nat)

  /** The report generator samples with this limit, whatever limit it is given. */
  const LightweightLimit: nat := 200

  /** The `type` key of a record; a missing key makes the sampling fail. */
  function TypeField(r: TravelRecord): Option<string> { r.kind }

  predicate Given(t: Option<string>) { t.Some? && t.value != "" }

  /** Python `get_date`: the first non-empty of the departure, check-in and pickup times. */
  function RecordDate(r: TravelRecord): (d: string)
    ensures Given(r.departTime) ==> d == r.departTime.value
    ensures !Given(r.departTime) && Given(r.checkInTime) ==> d == r.checkInTime.value
    ensures !Given(r.departTime) && !Given(r.checkInTime) && Given(r.pickupTime) ==> d == r.pickupTime.value
    ensures d == "" <==> !Given(r.departTime) && !Given(r.checkInTime) && !Given(r.pickupTime)
  {
    if Given(r.departTime) then r.departTime.value
    else if Given(r.checkInTime) then r.checkInTime.value
    else if Given(r.pickupTime) then r.pickupTime.value
    else ""
  }

  /** The order of `sorted(..., reverse=True)` on dates: later first. */
  function Later(a: string, b: string): bool { Le(b, a) }

  lemma LaterOrder()
    ensures TotalPreorder(Later)
  {
    LeTotalOrder();
  }

  /** The records of one type that are kept: latest first, at most `max` of them. */
  function Block(rs: seq<TravelRecord>, max: nat): seq<TravelRecord> {
    Take(SortBy(rs, RecordDate, Later), max)
  }

  lemma BlockFacts(rs: seq<TravelRecord>, max: nat)
    ensures |Block(rs, max)| == if |rs| <= max then |rs| else max
    ensures forall x :: x in Block(rs, max) ==> x in rs
    ensures SortedBy(Block(rs, max), RecordDate, Later)
  {
    var sorted := SortBy(rs, RecordDate, Later);
    LaterOrder();
    SortBySorted(rs, RecordDate, Later);
    forall x | x in Block(rs, max) ensures x in rs {
      assert x in sorted;
      assert x in multiset(sorted);
    }
  }

  /** Every record has a `type` key. */
  predicate Typed(records: seq<TravelRecord>) {
    forall i :: 0 <= i < |records| ==> records[i].kind.Some?
  }

  function Listed(rs: Option<seq<TravelRecord>>, r: TravelRecord): seq<TravelRecord> {
    match rs
    case None => [r]
    case Some(rs) => rs + [r]
  }

  /** `by_type[t].append(r)` on a `defaultdict(list)`. */
  function AddRecord(d: Dict<string, seq<TravelRecord>>, t: string, r: TravelRecord): Dict<string, seq<TravelRecord>> {
    Put(d, t, Listed(Get(d, t), r))
  }

  /** Python's `by_type`: the records of each type, types in order of first occurrence. */
  function ByType(records: seq<TravelRecord>): Dict<string, seq<TravelRecord>>
    requires Typed(records)
  {
    if records == [] then []
    else
      var n := |records| - 1;
      assert Typed(records[..n]);
      AddRecord(ByType(records[..n]), records[n].kind.value, records[n])
  }

  /** The position of the first record whose type is `t`, or the length when there is none. */
  function FirstOf(records: seq<TravelRecord>, t: Option<string>): (f: nat)
    ensures f <= |records| && (f < |records| ==> records[f].kind == t)
    ensures forall q :: 0 <= q < f ==> records[q].kind != t
  {
    if records == [] then 0
    else if records[0].kind == t then 0
    else 1 + FirstOf(records[1..], t)
  }

  lemma {:induction false} FirstOfSnoc(init: seq<TravelRecord>, r: TravelRecord, t: Option<string>)
    ensures FirstOf(init + [r], t) ==
      if FirstOf(init, t) < |init| then FirstOf(init, t) else if r.kind == t then |init| else |init| + 1
  {
    if init == [] {
      assert [r][1..] == [];
    } else {
      assert (init + [r])[1..] == init[1..] + [r];
      FirstOfSnoc(init[1..], r, t);
    }
  }

  lemma {:induction false} ByTypeDistinct(records: seq<TravelRecord>)
    requires Typed(records)
    ensures DistinctKeys(ByType(records))
  {
    if records != [] {
      var n := |records| - 1;
      assert Typed(records[..n]);
      ByTypeDistinct(records[..n]);
      var d := ByType(records[..n]);
      var t := records[n].kind.value;
      PutDistinct(d, t, Listed(Get(d, t), records[n]));
    }
  }

  /** Every record's type is a key of `by_type`. */
  lemma AddRecordKeys(d: Dict<string, seq<TravelRecord>>, t: string, r: TravelRecord)
    ensures t in Keys(AddRecord(d, t, r)) && forall q :: q in Keys(d) ==> q in Keys(AddRecord(d, t, r))
  {
    PutKeys(d, t, Listed(Get(d, t), r));
  }

  lemma {:induction false} ByTypeCovers(records: seq<TravelRecord>)
    requires Typed(records)
    ensures forall i :: 0 <= i < |records| ==> records[i].kind.value in Keys(ByType(records))
  {
    if records != [] {
      var n := |records| - 1;
      var init := records[..n];
      assert Typed(init);
      ByTypeCovers(init);
      var d := ByType(init);
      var t := records[n].kind.value;
      AddRecordKeys(d, t, records[n]);
      var ks := Keys(ByType(records));
      assert ks == Keys(AddRecord(d, t, records[n]));
      forall i | 0 <= i < |records| ensures records[i].kind.value in ks {
        if i < n {
          assert init[i] == records[i];
        }
      }
    }
  }

  /** Each type of `ks` occurs in `records`, and each is first met before the next. */
  predicate FirstOrder(records: seq<TravelRecord>, ks: seq<string>) {
    && (forall i :: 0 <= i < |ks| ==> FirstOf(records, Some(ks[i])) < |records|)
    && (forall i, j :: 0 <= i < j < |ks| ==> FirstOf(records, Some(ks[i])) < FirstOf(records, Some(ks[j])))
  }

  /** One more record leaves the first occurrences of the types already met where they were. */
  lemma FirstOrderSnoc(init: seq<TravelRecord>, r: TravelRecord, ks: seq<string>)
    requires FirstOrder(init, ks)
    ensures FirstOrder(init + [r], ks)
  {
    forall i | 0 <= i < |ks| ensures FirstOf(init + [r], Some(ks[i])) == FirstOf(init, Some(ks[i])) {
      FirstOfSnoc(init, r, Some(ks[i]));
    }
  }

  /** A record of a new type puts its type after all the types already met. */
  lemma FirstOrderNew(init: seq<TravelRecord>, r: TravelRecord, ks: seq<string>, t: string)
    requires FirstOrder(init, ks) && r.kind == Some(t)
    requires forall q :: 0 <= q < |init| ==> init[q].kind != Some(t)
    ensures FirstOrder(init + [r], ks + [t])
  {
    FirstOrderSnoc(init, r, ks);
    FirstOfSnoc(init, r, Some(t));
    var ks' := ks + [t];
    forall i | 0 <= i < |ks| ensures ks'[i] == ks[i] { }
  }

  /** The keys of `by_type` come in order of first occurrence. */
  lemma {:induction false} ByTypeOrder(records: seq<TravelRecord>)
    requires Typed(records)
    ensures FirstOrder(records, Keys(ByType(records)))
  {
    if records != [] {
      var n := |records| - 1;
      var init := records[..n];
      var r := records[n];
      assert records == init + [r];
      assert Typed(init);
      ByTypeOrder(init);
      var d := ByType(init);
      var t := r.kind.value;
      PutKeys(d, t, Listed(Get(d, t), r));
      var ks := Keys(d);
      if t in ks {
        FirstOrderSnoc(init, r, ks);
      } else {
        ByTypeCovers(init);
        FirstOrderNew(init, r, ks, t);
      }
    }
  }

  /** One group of `by_type`: all the records of its type, in input order. */
  predicate GroupOf(records: seq<TravelRecord>, e: (string, seq<TravelRecord>)) {
    e.1 == Filter(records, TypeField, Some(e.0)) && e.1 != []
  }

  /** A type that is not a key of `by_type` has no records. */
  lemma ByTypeAbsent(records: seq<TravelRecord>, t: string)
    requires Typed(records) && t !in Keys(ByType(records))
    ensures Filter(records, TypeField, Some(t)) == []
  {
    ByTypeCovers(records);
    forall x | x in records ensures TypeField(x) != Some(t) {
      var i :| 0 <= i < |records| && records[i] == x;
    }
    FilterNone(records, TypeField, Some(t));
  }

  /** The groups of `d` each hold the records of their type. */
  predicate Grouping(records: seq<TravelRecord>, d: Dict<string, seq<TravelRecord>>) {
    forall e :: e in d ==> GroupOf(records, e)
  }

  lemma {:induction false} ByTypeValues(records: seq<TravelRecord>)
    requires Typed(records)
    ensures Grouping(records, ByType(records))
  {
    if records != [] {
      var n := |records| - 1;
      var init := records[..n];
      var r := records[n];
      assert records == init + [r];
      assert Typed(init);
      ByTypeValues(init);
      ByTypeDistinct(init);
      var d := ByType(init);
      var t := r.kind.value;
      var v := Listed(Get(d, t), r);
      PutMembers(d, t, v);
      FilterSnoc(init, r, TypeField, Some(t));
      if Get(d, t).None? {
        ByTypeAbsent(init, t);
      } else {
        var i := GetSome(d, t);
        assert d[i] in d;
      }
      assert GroupOf(records, (t, v));
      forall e | e in ByType(records) ensures GroupOf(records, e) {
        if e.0 != t {
          FilterSnoc(init, r, TypeField, Some(e.0));
          assert GroupOf(init, e);
        }
      }
    }
  }

  lemma GroupKinds(records: seq<TravelRecord>, e: (string, seq<TravelRecord>))
    requires GroupOf(records, e)
    ensures forall x :: x in e.1 ==> x.kind == Some(e.0)
  {
    FilterMembers(records, TypeField, Some(e.0));
    forall x | x in e.1 ensures x.kind == Some(e.0) {
      var i :| 0 <= i < |e.1| && e.1[i] == x;
    }
  }

  /** The kept records of each group, group after group. */
  function Sampled(d: Dict<string, seq<TravelRecord>>, max: nat): seq<TravelRecord> {
    if d == [] then [] else Block(d[0].1, max) + Sampled(d[1..], max)
  }

  /** Python `sample_data`: None when some record has no `type` key. */
  function SampleOf(data: Dataset, max: nat): (r: Option<Sample>)
    ensures r.None? <==> exists i :: 0 <= i < |data.records.GetOr([])| && data.records.GetOr([])[i].kind.None?
    ensures r.Some? ==>
      && r.value.totalRecords == |data.records.GetOr([])|
      && r.value.sampledRecords == |r.value.records|
      && r.value.summary == data.summary && r.value.lastUpdate == data.lastUpdate
      && r.value.months == data.months.GetOr([]) && r.value.isSample
  {
    var records := data.records.GetOr([]);
    if !Typed(records) then None
    else
      var sampled := Sampled(ByType(records), max);
      Some(Sample(data.lastUpdate, data.months.GetOr([]), data.summary, sampled, true, |records|, |sampled|))
  }

  /** Filtering one group's kept records by type keeps all of them or none. */
  lemma BlockFilter(records: seq<TravelRecord>, e: (string, seq<TravelRecord>), max: nat, t: Option<string>)
    requires GroupOf(records, e)
    ensures Filter(Block(e.1, max), TypeField, t) == if t == Some(e.0) then Block(e.1, max) else []
  {
    var b := Block(e.1, max);
    BlockFacts(e.1, max);
    GroupKinds(records, e);
    if t == Some(e.0) {
      FilterAll(b, TypeField, t);
    } else {
      FilterNone(b, TypeField, t);
    }
  }

  lemma {:induction false} SampledFilter(records: seq<TravelRecord>, d: Dict<string, seq<TravelRecord>>, max: nat, t: Option<string>)
    requires DistinctKeys(d) && Grouping(records, d)
    ensures Filter(Sampled(d, max), TypeField, t) ==
      if t.Some? && t.value in Keys(d) then Block(Filter(records, TypeField, t), max) else []
  {
    if d != [] {
      var rest := d[1..];
      GroupingRest(records, d);
      SampledFilter(records, rest, max, t);
      FilterAppend(Block(d[0].1, max), Sampled(rest, max), TypeField, t);
      BlockFilter(records, d[0], max, t);
    }
  }

  /** A grouping with distinct keys, split into its first group and the others. */
  lemma GroupingRest(records: seq<TravelRecord>, d: Dict<string, seq<TravelRecord>>)
    requires d != [] && DistinctKeys(d) && Grouping(records, d)
    ensures GroupOf(records, d[0]) && DistinctKeys(d[1..]) && Grouping(records, d[1..])
    ensures Keys(d) == [d[0].0] + Keys(d[1..]) && d[0].0 !in Keys(d[1..])
  {
    var rest := d[1..];
    assert d[0] in d;
    assert forall e :: e in rest ==> e in d;
    assert DistinctKeys(rest);
    KeysAt(rest);
    forall j | 0 <= j < |rest| ensures Keys(rest)[j] != d[0].0 {
      assert rest[j] == d[j + 1];
    }
  }

  /**
   * Each type's sampled records are exactly the first `max` of its input
   * records once those are sorted latest first, ties kept in input order.
   */
  lemma SampleOfType(data: Dataset, max: nat, t: Option<string>)
    requires SampleOf(data, max).Some?
    ensures var records := data.records.GetOr([]);
      Filter(SampleOf(data, max).value.records, TypeField, t) == Block(Filter(records, TypeField, t), max)
  {
    var records := data.records.GetOr([]);
    var d := ByType(records);
    ByTypeDistinct(records);
    ByTypeValues(records);
    SampledFilter(records, d, max, t);
    if t.None? {
      forall x | x in records ensures TypeField(x) != t {
        var i :| 0 <= i < |records| && records[i] == x;
      }
      FilterNone(records, TypeField, t);
    } else if t.value !in Keys(d) {
      ByTypeAbsent(records, t.value);
    }
  }

  /** Each type contributes at most `max` records, latest first, all taken from the input. */
  lemma SampleBounded(data: Dataset, max: nat)
    requires SampleOf(data, max).Some?
    ensures var s := SampleOf(data, max).value.records;
      forall t :: |Filter(s, TypeField, t)| <= max && SortedBy(Filter(s, TypeField, t), RecordDate, Later)
    ensures forall x :: x in SampleOf(data, max).value.records ==> x in data.records.GetOr([])
  {
    var records := data.records.GetOr([]);
    var s := SampleOf(data, max).value.records;
    forall t ensures |Filter(s, TypeField, t)| <= max && SortedBy(Filter(s, TypeField, t), RecordDate, Later) {
      SampleOfType(data, max, t);
      BlockFacts(Filter(records, TypeField, t), max);
    }
    forall x | x in s ensures x in records {
      var t := x.kind;
      FilterHas(s, TypeField, t, x);
      SampleOfType(data, max, t);
      BlockFacts(Filter(records, TypeField, t), max);
      FilterMembers(records, TypeField, t);
    }
  }

  /** Python `sum(min(len(rs), max) for rs in by_type.values())`, over a list of types. */
  function CappedCount(records: seq<TravelRecord>, types: seq<string>, max: nat): nat {
    if types == [] then 0
    else
      var c := |Filter(records, TypeField, Some(types[0]))|;
      (if c <= max then c else max) + CappedCount(records, types[1..], max)
  }

  lemma {:induction false} SampledCount(records: seq<TravelRecord>, d: Dict<string, seq<TravelRecord>>, max: nat)
    requires Grouping(records, d)
    ensures |Sampled(d, max)| == CappedCount(records, Keys(d), max)
  {
    if d != [] {
      assert d[0] in d;
      assert forall e :: e in d[1..] ==> e in d;
      SampledCount(records, d[1..], max);
      BlockFacts(d[0].1, max);
    }
  }

  /**
   * `sampledRecords` sums, over the types in order of first occurrence, the
   * number of records of the type capped at `max`.
   */
  lemma SampleCount(data: Dataset, max: nat)
    requires SampleOf(data, max).Some?
    ensures var records := data.records.GetOr([]);
      && Typed(records)
      && SampleOf(data, max).value.sampledRecords == CappedCount(records, Keys(ByType(records)), max)
  {
    var records := data.records.GetOr([]);
    ByTypeValues(records);
    SampledCount(records, ByType(records), max);
  }

  /** The groups' types are met for the first time in the order of the groups. */
  predicate KeysInOrder(records: seq<TravelRecord>, d: Dict<string, seq<TravelRecord>>) {
    forall i, j :: 0 <= i < j < |d| ==> FirstOf(records, Some(d[i].0)) < FirstOf(records, Some(d[j].0))
  }

  /** No sampled record's type is met before the first group's type. */
  lemma {:induction false} SampledRanks(d: Dict<string, seq<TravelRecord>>, records: seq<TravelRecord>, max: nat)
    requires d != [] && Grouping(records, d) && KeysInOrder(records, d)
    ensures forall x :: x in Sampled(d, max) ==> FirstOf(records, Some(d[0].0)) <= FirstOf(records, x.kind)
  {
    var b := Block(d[0].1, max);
    var rest := d[1..];
    assert d[0] in d;
    BlockFacts(d[0].1, max);
    GroupKinds(records, d[0]);
    if rest == [] {
      assert Sampled(d, max) == b + [];
    } else {
      assert forall e :: e in rest ==> e in d;
      assert rest[0] == d[1];
      SampledRanks(rest, records, max);
    }
  }

  /** When the groups are in order of first occurrence, so are the sampled records. */
  lemma {:induction false} SampledOrder(d: Dict<string, seq<TravelRecord>>, records: seq<TravelRecord>, max: nat)
    requires Grouping(records, d) && KeysInOrder(records, d)
    ensures forall i, j :: 0 <= i < j < |Sampled(d, max)| ==>
      FirstOf(records, Sampled(d, max)[i].kind) <= FirstOf(records, Sampled(d, max)[j].kind)
  {
    if d != [] {
      var b := Block(d[0].1, max);
      var rest := d[1..];
      var s := Sampled(d, max);
      var sr := Sampled(rest, max);
      assert s == b + sr;
      assert d[0] in d;
      assert forall e :: e in rest ==> e in d;
      SampledOrder(rest, records, max);
      BlockFacts(d[0].1, max);
      GroupKinds(records, d[0]);
      if rest != [] {
        SampledRanks(rest, records, max);
        assert rest[0] == d[1];
      }
      forall i, j | 0 <= i < j < |s| ensures FirstOf(records, s[i].kind) <= FirstOf(records, s[j].kind) {
        if j < |b| {
          assert s[i] == b[i] && b[i] in b && s[j] == b[j] && b[j] in b;
        } else if i < |b| {
          assert s[i] == b[i] && b[i] in b;
          assert s[j] == sr[j - |b|] && sr[j - |b|] in sr;
        } else {
          assert s[i] == sr[i - |b|] && s[j] == sr[j - |b|];
        }
      }
    }
  }

  /** The sampled records come type block by type block, in order of the types' first occurrence. */
  lemma SampleOrder(data: Dataset, max: nat)
    requires SampleOf(data, max).Some?
    ensures var records := data.records.GetOr([]); var s := SampleOf(data, max).value.records;
      forall i, j :: 0 <= i < j < |s| ==> FirstOf(records, s[i].kind) <= FirstOf(records, s[j].kind)
  {
    var records := data.records.GetOr([]);
    var d := ByType(records);
    ByTypeValues(records);
    ByTypeOrder(records);
    KeysAt(d);
    assert KeysInOrder(records, d);
    SampledOrder(d, records, max);
  }

  /** The report generator's call: the limit it is given is ignored in favour of 200. */
  function LightweightSample(data: Dataset, maxRecords: nat): (r: Option<Sample>)
    ensures r.Some? ==> forall t :: |Filter(r.value.records, TypeField, t)| <= LightweightLimit
  {
    var r := SampleOf(data, LightweightLimit);
    if r.Some? then SampleBounded(data, LightweightLimit); r else r
  }

  lemma {:induction false} SampledSnoc(d: Dict<string, seq<TravelRecord>>, k: nat, max: nat)
    requires k < |d|
    ensures Sampled(d[..k + 1], max) == Sampled(d[..k], max) + Block(d[k].1, max)
  {
    if k == 0 {
      assert d[..1][1..] == [];
    } else {
      assert d[..k + 1][1..] == d[1..][..k];
      assert d[..k][1..] == d[1..][..k - 1];
      SampledSnoc(d[1..], k - 1, max);
    }
  }

  lemma ByTypeStep(records: seq<TravelRecord>, i: nat)
    requires i < |records| && Typed(records[..i]) && records[i].kind.Some?
    ensures Typed(records[..i + 1])
    ensures ByType(records[..i + 1]) == AddRecord(ByType(records[..i]), records[i].kind.value, records[i])
  {
    assert records[..i + 1][..i] == records[..i];
  }

  /** The first loop of `sample_data`: records appended to their type's list; None on a record without a type. */
  method GroupByType(records: seq<TravelRecord>) returns (byType: Option<Dict<string, seq<TravelRecord>>>)
    ensures byType.None? <==> !Typed(records)
    ensures byType.Some? ==> Typed(records) && byType.value == ByType(records)
  {
    var d: Dict<string, seq<TravelRecord>> := [];
    for i := 0 to |records|
      invariant Typed(records[..i]) && d == ByType(records[..i])
    {
      var r := records[i];
      if r.kind.None? {
        return None;
      }
      ByTypeStep(records, i);
      d := AddRecord(d, r.kind.value, r);
    }
    assert records[..|records|] == records;
    byType := Some(d);
  }

  /** The second loop of `sample_data`: each type's records sorted latest first and cut to the limit, appended in turn. */
  method KeepLatest(byType: Dict<string, seq<TravelRecord>>, maxRecords: nat) returns (sampled: seq<TravelRecord>)
    ensures sampled == Sampled(byType, maxRecords)
  {
    sampled := [];
    for k := 0 to |byType|
      invariant sampled == Sampled(byType[..k], maxRecords)
    {
      SampledSnoc(byType, k, maxRecords);
      var sortedRecords := SortBy(byType[k].1, RecordDate, Later);
      sampled := sampled + Take(sortedRecords, maxRecords);
    }
    assert byType[..|byType|] == byType;
  }

  /** Python `sample_data`: group by type, keep the latest records of each type. */
  method SampleData(data: Dataset, maxRecords: nat) returns (result: Option<Sample>)
    ensures result == SampleOf(data, maxRecords)
  {
    var records := data.records.GetOr([]);
    var grouped := GroupByType(records);
    if grouped.None? {
      return None;
    }
    var sampled := KeepLatest(grouped.value, maxRecords);
    result := Some(Sample(data.lastUpdate, data.months.GetOr([]), data.summary, sampled, true, |records|, |sampled|));
  }
}
