/**
 * Sorting the files of the raw data directory by their names: roster files
 * by the month they describe, travel files by vendor together with the month
 * they mostly cover, and the roster chosen for every travel file.
 */
module FileScanner {
  import opened Wrappers
  import opened Text
  import opened Dicts
  import opened Sorting
  import opened Calendar
  import opened DateMatcher
  import opened RosterMonth

  // ---------------------------------------------------------- classification

  /** The kinds of file `classify_file` tells apart. */
  datatype Kind = Roster | Alibaba | Ctrip | Zaitu

  const RosterWord: string := "花名册"
  const AlibabaPrefix: string := "阿里"
  const CtripPrefix: string := "携程"
  const ZaituPrefix: string := "在途"

  lemma KeywordsCaseless()
    ensures Caseless(RosterWord) && Caseless(AlibabaPrefix) && Caseless(CtripPrefix) && Caseless(ZaituPrefix)
  {
  }

  /**
   * `classify_file`: the lower-cased name holding the roster word is a
   * roster, whatever it starts with; otherwise the vendor prefix decides.
   */
  function ClassifyFile(filename: string): Option<Kind> {
    var name := Lower(filename);
    if Contains(name, RosterWord) then Some(Roster)
    else if StartsWith(name, AlibabaPrefix) then Some(Alibaba)
    else if StartsWith(name, CtripPrefix) then Some(Ctrip)
    else if StartsWith(name, ZaituPrefix) then Some(Zaitu)
    else None
  }

  /**
   * As no keyword has an ASCII letter, lower-casing changes nothing: the
   * class is decided by the name as given, the roster word first.
   */
  lemma ClassifyByName(filename: string)
    ensures var r := ClassifyFile(filename);
            && (r == Some(Roster) <==> Contains(filename, RosterWord))
            && (r == Some(Alibaba) <==> !Contains(filename, RosterWord) && StartsWith(filename, AlibabaPrefix))
            && (r == Some(Ctrip) <==> !Contains(filename, RosterWord) && !StartsWith(filename, AlibabaPrefix)
                                      && StartsWith(filename, CtripPrefix))
            && (r == Some(Zaitu) <==> !Contains(filename, RosterWord) && !StartsWith(filename, AlibabaPrefix)
                                      && !StartsWith(filename, CtripPrefix) && StartsWith(filename, ZaituPrefix))
  {
    KeywordsCaseless();
    ContainsLower(filename, RosterWord);
    StartsWithLower(filename, AlibabaPrefix);
    StartsWithLower(filename, CtripPrefix);
    StartsWithLower(filename, ZaituPrefix);
  }

  /** The prefix of a vendor's files. */
  function Prefix(k: Kind): string
    requires k != Roster
  {
    match k
    case Alibaba => AlibabaPrefix
    case Ctrip => CtripPrefix
    case Zaitu => ZaituPrefix
  }

  /** The vendor prefixes exclude one another: a name without the roster word is filed under its prefix. */
  lemma VendorPrefixDecides(filename: string, k: Kind)
    requires k != Roster && !Contains(filename, RosterWord) && StartsWith(filename, Prefix(k))
    ensures ClassifyFile(filename) == Some(k)
  {
    ClassifyByName(filename);
    assert filename[0] == Prefix(k)[0];
    assert AlibabaPrefix[0] != CtripPrefix[0] && AlibabaPrefix[0] != ZaituPrefix[0] && CtripPrefix[0] != ZaituPrefix[0];
  }

  // ------------------------------------------------------------ scan results

  /** `RosterFileInfo`, without the path, which is the directory joined with the name. */
  datatype RosterFileInfo = RosterFileInfo(filename: string, month: string)

  /** `TravelFileInfo`, without the path. */
  datatype TravelFileInfo = TravelFileInfo(filename: string, source: Kind, dateRange: Option<DateRange>,
                                           targetMonth: Option<string>, matchingRoster: Option<string>)

  /** `ScanResult`: the rosters by month and the travel files of each vendor. */
  datatype ScanResult = ScanResult(rosters: Dict<string, RosterFileInfo>, alibaba: seq<TravelFileInfo>,
                                   ctrip: seq<TravelFileInfo>, zaitu: seq<TravelFileInfo>)
  {
    /** `all_travel_files`: the vendor lists one after the other. */
    function AllTravelFiles(): (r: seq<TravelFileInfo>)
      ensures |r| == |alibaba| + |ctrip| + |zaitu|
      ensures r[..|alibaba|] == alibaba && r[|alibaba|..|alibaba| + |ctrip|] == ctrip
              && r[|alibaba| + |ctrip|..] == zaitu
    {
      alibaba + ctrip + zaitu
    }

    /** `roster_months`: the roster months in ascending order. */
    function RosterMonths(): (ks: seq<string>)
      ensures multiset(ks) == multiset(Keys(rosters))
      ensures forall i, j :: 0 <= i < j < |ks| ==> Le(ks[i], ks[j])
    {
      SortedMonths(rosters)
    }

    /** `get_roster_map`: each month with the name of its roster file, in the same order. */
    function GetRosterMap(): (m: Dict<string, string>)
      ensures |m| == |rosters| && forall i :: 0 <= i < |m| ==> m[i] == (rosters[i].0, rosters[i].1.filename)
    {
      seq(|rosters|, i requires 0 <= i < |rosters| => (rosters[i].0, rosters[i].1.filename))
    }
  }

  /** The roster map finds, for every month, the name of the file the rosters hold for it. */
  lemma {:induction false} RosterMapGet(r: ScanResult, k: string)
    ensures Get(r.GetRosterMap(), k) == match Get(r.rosters, k) case Some(info) => Some(info.filename) case None => None
    decreases |r.rosters|
  {
    if r.rosters != [] {
      var rest := r.(rosters := r.rosters[1..]);
      assert r.GetRosterMap()[1..] == rest.GetRosterMap();
      RosterMapGet(rest, k);
    }
  }

  // --------------------------------------------------- the scan, as a value

  /** The date range parsed from a file name, as `parse_date_range_from_filename` returns it. */
  function RangeOf(filename: string): Option<DateRange> {
    match DateBounds(filename)
    case None => None
    case Some((a, b)) => Some(DateRange(a, b, DaysByMonth(a, b)))
  }

  /** `target_month`: the main month of the range in the name; it always reads as `YYYY-MM`. */
  function TargetMonth(filename: string): (r: Option<string>)
    ensures r.Some? ==> RangeOf(filename).Some? && MonthShaped(r.value)
    ensures RangeOf(filename).Some? && NotAfter(RangeOf(filename).value.start, RangeOf(filename).value.end) ==> r.Some?
  {
    match RangeOf(filename)
    case None => None
    case Some(dr) =>
      MainMonthShaped(dr.start, dr.end);
      dr.MainMonth()
  }

  /** The main month of a range is one of its month keys, so it splits as a month. */
  lemma MainMonthShaped(a: Date, b: Date)
    requires IsValid(a) && IsValid(b)
    ensures var m := DateRange(a, b, DaysByMonth(a, b)).MainMonth();
            (NotAfter(a, b) ==> m.Some?) && (m.Some? ==> MonthShaped(m.value))
  {
    var d := DaysByMonth(a, b);
    var m := DateRange(a, b, d).MainMonth();
    var ds := DatesBetween(a, b);
    if NotAfter(a, b) {
      DaysKeysAreMonths(a, b, MonthKey(a));
      assert ds[0] == a;
      MonthKeysAt(ds);
      assert MonthKeys(ds)[0] == MonthKey(a);
    }
    if m.Some? {
      var i: nat :| IsFirstMax(d, i) && d[i].0 == m.value;
      KeysAt(d);
      assert Keys(d)[i] == m.value;
      DaysKeysAreMonths(a, b, m.value);
      MonthKeysAt(ds);
      var j :| 0 <= j < |ds| && MonthKeys(ds)[j] == m.value;
      MonthKeyParts(ds[j]);
    }
  }

  /** A travel file as the scan first records it, before any roster is attached. */
  function NewTravel(filename: string, k: Kind): TravelFileInfo {
    TravelFileInfo(filename, k, RangeOf(filename), TargetMonth(filename), None)
  }

  /** A travel file the way the first loop leaves it: a target month that reads as a month, no roster yet. */
  predicate Fresh(info: TravelFileInfo) {
    && (info.targetMonth.Some? ==> MonthShaped(info.targetMonth.value))
    && info.matchingRoster.None?
  }

  /** One file of the first loop of `scan_and_classify_files`. */
  function Step(r: ScanResult, filename: string): ScanResult {
    match ClassifyFile(filename)
    case None => r
    case Some(kind) =>
      if kind == Roster then
        match ExtractRosterMonth(filename)
        case Some(month) => r.(rosters := Put(r.rosters, month, RosterFileInfo(filename, month)))
        case None => r
      else AddTravel(r, NewTravel(filename, kind))
  }

  /** `getattr(result, file_type).append(travel_info)`. */
  function AddTravel(r: ScanResult, info: TravelFileInfo): ScanResult
    requires info.source != Roster
  {
    match info.source
    case Alibaba => r.(alibaba := r.alibaba + [info])
    case Ctrip => r.(ctrip := r.ctrip + [info])
    case Zaitu => r.(zaitu := r.zaitu + [info])
  }

  /** What the first loop has collected after the given files. */
  function Collect(files: seq<string>): ScanResult {
    if files == [] then ScanResult([], [], [], [])
    else Step(Collect(files[..|files| - 1]), files[|files| - 1])
  }

  /** A step appends to the list of the file's vendor, and to no other list. */
  lemma StepVendor(r: ScanResult, filename: string, k: Kind)
    requires k != Roster
    ensures Vendor(Step(r, filename), k)
            == Vendor(r, k) + if ClassifyFile(filename) == Some(k) then [NewTravel(filename, k)] else []
  {
  }

  /** A step stores a roster file under the month its name yields, and nothing else. */
  lemma StepRosters(r: ScanResult, filename: string)
    ensures Step(r, filename).rosters
            == if ClassifyFile(filename) == Some(Roster) && ExtractRosterMonth(filename).Some?
               then Put(r.rosters, ExtractRosterMonth(filename).value,
                        RosterFileInfo(filename, ExtractRosterMonth(filename).value))
               else r.rosters
  {
  }

  /** Every collected travel file is fresh: a target month that reads as a month, no roster yet. */
  lemma {:induction false} CollectFresh(files: seq<string>)
    ensures forall k, info :: k != Roster && info in Vendor(Collect(files), k) ==> Fresh(info)
  {
    if files != [] {
      var init, last := files[..|files| - 1], files[|files| - 1];
      CollectFresh(init);
      forall k | k != Roster ensures forall info :: info in Vendor(Collect(files), k) ==> Fresh(info) {
        StepVendor(Collect(init), last, k);
      }
    }
  }

  /** `find_matching_roster_file` for a travel file that has a target month; the rest keep no roster. */
  function Attached(info: TravelFileInfo, rosterMap: Dict<string, string>): (r: TravelFileInfo)
    requires Fresh(info)
    ensures r.(matchingRoster := None) == info
    ensures r.matchingRoster.Some? <==> info.targetMonth.Some? && rosterMap != []
    ensures r.matchingRoster.Some? ==> r.matchingRoster.value in Values(rosterMap)
    ensures info.targetMonth.Some? ==> r.matchingRoster == FindMatchingRoster(info.targetMonth.value, rosterMap)
  {
    if info.targetMonth.Some? then info.(matchingRoster := FindMatchingRoster(info.targetMonth.value, rosterMap))
    else info
  }

  /**
   * The second loop over every travel file: each keeps its place and all but
   * its roster; it gets the roster `find_matching_roster_file` picks for its
   * target month, and none without a target month or without rosters.
   */
  function AttachAll(infos: seq<TravelFileInfo>, rosterMap: Dict<string, string>): (r: seq<TravelFileInfo>)
    requires forall info :: info in infos ==> Fresh(info)
    ensures |r| == |infos|
    ensures forall i :: 0 <= i < |r| ==> r[i].(matchingRoster := None) == infos[i]
    ensures forall i :: 0 <= i < |r| ==> (r[i].matchingRoster.Some? <==> infos[i].targetMonth.Some? && rosterMap != [])
    ensures forall i :: 0 <= i < |r| && infos[i].targetMonth.Some? ==>
              MonthShaped(infos[i].targetMonth.value)
              && r[i].matchingRoster == FindMatchingRoster(infos[i].targetMonth.value, rosterMap)
  {
    var r := seq(|infos|, i requires 0 <= i < |infos| => Attached(infos[i], rosterMap));
    assert forall i :: 0 <= i < |infos| ==> infos[i] in infos && Fresh(infos[i]) && r[i] == Attached(infos[i], rosterMap);
    r
  }

  /** What `scan_and_classify_files` returns for the files in the order they are listed. */
  function Scanned(files: seq<string>): ScanResult {
    var c := Collect(files);
    CollectFresh(files);
    assert Vendor(c, Alibaba) == c.alibaba && Vendor(c, Ctrip) == c.ctrip && Vendor(c, Zaitu) == c.zaitu;
    var rosterMap := c.GetRosterMap();
    c.(alibaba := AttachAll(c.alibaba, rosterMap), ctrip := AttachAll(c.ctrip, rosterMap),
       zaitu := AttachAll(c.zaitu, rosterMap))
  }

  // ------------------------------------------------ the scan, step by step

  /**
   * `scan_and_classify_files` on the names `scan_excel_files` lists: a first
   * loop files every name, a second loop attaches a roster to every travel
   * file that has a target month.
   */
  method ScanAndClassifyFiles(files: seq<string>) returns (result: ScanResult)
    ensures result == Scanned(files)
  {
    result := ClassifyFiles(files);
    var collected := result;
    CollectFresh(files);
    assert Vendor(result, Alibaba) == result.alibaba && Vendor(result, Ctrip) == result.ctrip;
    assert Vendor(result, Zaitu) == result.zaitu;
    var rosterMap := result.GetRosterMap();
    var all := AttachRosters(result.AllTravelFiles(), rosterMap);
    var na, nc := |result.alibaba|, |result.ctrip|;
    result := result.(alibaba := all[..na], ctrip := all[na..na + nc], zaitu := all[na + nc..]);
    assert result.alibaba == AttachAll(collected.alibaba, rosterMap);
    assert result.ctrip == AttachAll(collected.ctrip, rosterMap);
    assert result.zaitu == AttachAll(collected.zaitu, rosterMap);
  }

  /** The first loop: every roster with a month is stored under it, every travel file appended to its vendor. */
  method ClassifyFiles(files: seq<string>) returns (result: ScanResult)
    ensures result == Collect(files)
  {
    result := ScanResult([], [], [], []);
    for i := 0 to |files|
      invariant result == Collect(files[..i])
    {
      var filename := files[i];
      var kind := ClassifyFile(filename);
      if kind == Some(Roster) {
        var month := ExtractRosterMonth(filename);
        if month.Some? {
          result := result.(rosters := Put(result.rosters, month.value, RosterFileInfo(filename, month.value)));
        }
      } else if kind.Some? {
        var dateRange := ParseDateRangeFromFilename(filename);
        var targetMonth := if dateRange.Some? then dateRange.value.MainMonth() else None;
        var info := TravelFileInfo(filename, kind.value, dateRange, targetMonth, None);
        assert info == NewTravel(filename, kind.value);
        assert Step(result, filename) == AddTravel(result, info);
        if kind.value == Alibaba {
          result := result.(alibaba := result.alibaba + [info]);
        } else if kind.value == Ctrip {
          result := result.(ctrip := result.ctrip + [info]);
        } else {
          result := result.(zaitu := result.zaitu + [info]);
        }
      }
      assert files[..i + 1][..i] == files[..i];
    }
    assert files[..|files|] == files;
  }

  /** The second loop: every travel file with a target month gets its roster, in place. */
  method AttachRosters(infos: seq<TravelFileInfo>, rosterMap: Dict<string, string>) returns (out: seq<TravelFileInfo>)
    requires forall info :: info in infos ==> Fresh(info)
    ensures out == AttachAll(infos, rosterMap)
  {
    out := infos;
    for i := 0 to |infos|
      invariant |out| == |infos|
      invariant forall j :: 0 <= j < i ==> out[j] == Attached(infos[j], rosterMap)
      invariant forall j :: i <= j < |infos| ==> out[j] == infos[j]
    {
      var info := out[i];
      assert infos[i] in infos;
      if info.targetMonth.Some? {
        out := out[i := info.(matchingRoster := FindMatchingRoster(info.targetMonth.value, rosterMap))];
      }
    }
  }

  // --------------------------------------------------------- what it files

  /** Each vendor list holds the names filed under that vendor, in the order listed, none dropped. */
  lemma {:induction false} CollectVendors(files: seq<string>, k: Kind)
    requires k != Roster
    ensures Names(Vendor(Collect(files), k)) == Filter(files, ClassifyFile, Some(k))
    ensures forall info :: info in Vendor(Collect(files), k) ==> info == NewTravel(info.filename, k)
  {
    if files != [] {
      var init, last := files[..|files| - 1], files[|files| - 1];
      CollectVendors(init, k);
      FilterLast(files, ClassifyFile, Some(k));
      var v0 := Vendor(Collect(init), k);
      StepVendor(Collect(init), last, k);
      if ClassifyFile(last) == Some(k) {
        NamesSnoc(v0, NewTravel(last, k));
      }
    }
  }

  /** The list of a vendor's files. */
  function Vendor(r: ScanResult, k: Kind): seq<TravelFileInfo>
    requires k != Roster
  {
    match k
    case Alibaba => r.alibaba
    case Ctrip => r.ctrip
    case Zaitu => r.zaitu
  }

  function Names(infos: seq<TravelFileInfo>): (r: seq<string>)
    ensures |r| == |infos| && forall i :: 0 <= i < |infos| ==> r[i] == infos[i].filename
  {
    seq(|infos|, i requires 0 <= i < |infos| => infos[i].filename)
  }

  lemma NamesSnoc(infos: seq<TravelFileInfo>, info: TravelFileInfo)
    ensures Names(infos + [info]) == Names(infos) + [info.filename]
  {
  }

  /** The last listed roster file whose name yields month `k`. */
  function LastRoster(files: seq<string>, k: string): (r: Option<string>)
    ensures r.Some? ==> r.value in files && ClassifyFile(r.value) == Some(Roster)
                        && ExtractRosterMonth(r.value) == Some(k)
  {
    if files == [] then None
    else
      var last := files[|files| - 1];
      if ClassifyFile(last) == Some(Roster) && ExtractRosterMonth(last) == Some(k) then Some(last)
      else
        var r := LastRoster(files[..|files| - 1], k);
        assert r.Some? ==> r.value in files[..|files| - 1];
        r
  }

  /**
   * The roster kept for a month is the last roster file, in the order
   * listed, whose name yields that month; a month no name yields has none.
   */
  lemma {:induction false} CollectRosters(files: seq<string>, k: string)
    ensures Get(Collect(files).rosters, k)
            == match LastRoster(files, k) case Some(f) => Some(RosterFileInfo(f, k)) case None => None
  {
    if files != [] {
      var init, last := files[..|files| - 1], files[|files| - 1];
      CollectRosters(init, k);
      var c0 := Collect(init);
      StepRosters(c0, last);
      if ClassifyFile(last) == Some(Roster) && ExtractRosterMonth(last) == Some(k) {
        assert LastRoster(files, k) == Some(last);
      } else {
        assert LastRoster(files, k) == LastRoster(init, k);
        if ClassifyFile(last) == Some(Roster) && ExtractRosterMonth(last).Some? {
          var month := ExtractRosterMonth(last).value;
          PutOther(c0.rosters, month, RosterFileInfo(last, month), k);
        }
      }
    }
  }

  // --------------------------------------------------- what needs processing

  /** A raw file with its modification time. */
  datatype RawFile = RawFile(name: string, mtime: real)

  /** Modified after the time recorded for its name, a name with no record counting as time 0. */
  predicate Stale(f: RawFile, times: map<string, real>) {
    f.mtime > (if f.name in times then times[f.name] else 0.0)
  }

  /**
   * `get_files_to_process`: every file when forced; otherwise the files
   * modified since their recorded time, `times` being None when the record
   * is missing or unreadable.
   */
  method GetFilesToProcess(rawFiles: seq<RawFile>, times: Option<map<string, real>>, force: bool)
    returns (selected: seq<RawFile>)
    ensures force ==> selected == rawFiles
    ensures !force ==> selected == Filter(rawFiles, (f: RawFile) => Stale(f, times.GetOr(map[])), true)
  {
    if force {
      return rawFiles;
    }
    var processed := times.GetOr(map[]);
    var stale := (f: RawFile) => Stale(f, processed);
    selected := [];
    for i := 0 to |rawFiles|
      invariant selected == Filter(rawFiles[..i], stale, true)
    {
      FilterLast(rawFiles[..i + 1], stale, true);
      assert rawFiles[..i + 1][..i] == rawFiles[..i];
      if rawFiles[i].mtime > (if rawFiles[i].name in processed then processed[rawFiles[i].name] else 0.0) {
        selected := selected + [rawFiles[i]];
      }
    }
    assert rawFiles[..|rawFiles|] == rawFiles;
  }

  /** Unforced, a file is selected exactly when it is stale; without a record, when its time is positive. */
  lemma FilesToProcessExactly(rawFiles: seq<RawFile>, times: Option<map<string, real>>, f: RawFile)
    requires f in rawFiles
    ensures var t := times.GetOr(map[]);
            f in Filter(rawFiles, (g: RawFile) => Stale(g, t), true) <==> Stale(f, t)
    ensures times.None? ==> (f in Filter(rawFiles, (g: RawFile) => Stale(g, map[]), true) <==> f.mtime > 0.0)
  {
    var t := times.GetOr(map[]);
    var stale := (g: RawFile) => Stale(g, t);
    FilterMembers(rawFiles, stale, true);
    if Stale(f, t) {
      FilterHas(rawFiles, stale, true, f);
    }
    var empty: map<string, real> := map[];
    var none := (g: RawFile) => Stale(g, empty);
    FilterMembers(rawFiles, none, true);
    if f.mtime > 0.0 {
      FilterHas(rawFiles, none, true, f);
    }
  }
}
