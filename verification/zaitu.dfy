/**
 * The Zaitu (在途商旅) extractors of scripts/process_zaitu.py: finding the sheet
 * of each record kind by name, and one extractor per kind. Flights, stays and
 * train trips are read by column position; rides are read mostly by column
 * name, through Python `or` chains in which an empty cell (NaN) counts as true.
 */
module Zaitu {
  import opened Wrappers
  import opened Text
  import opened Dicts
  import opened Rows
  import opened Records
  import Roster

  const Source: string := "在途商旅"

  // ------------------------------------------------------------ worksheets

  /** The sheet names tried for each record kind, in order. */
  const SheetNames: map<string, seq<string>> := map[
    "flight" := ["机票", "机票交易", "机票明细"],
    "hotel" := ["酒店", "酒店交易", "酒店明细", "住宿"],
    "train" := ["火车", "火车票", "火车交易", "火车明细"],
    "car" := ["用车", "用车交易", "用车明细", "用车服务", "增值服务"]]

  /** `ZAITU_SHEET_MAPPING.get(kind, [])`. */
  function NamesFor(kind: string): seq<string> {
    if kind in SheetNames then SheetNames[kind] else []
  }

  /** The first of `names` that is a sheet of the workbook, by `name in df_dict`. */
  function ExactSheet<D>(sheets: Dict<string, D>, names: seq<string>): Option<D> {
    if names == [] then None
    else match Get(sheets, names[0])
      case Some(d) => Some(d)
      case None => ExactSheet(sheets, names[1..])
  }

  /** A sheet name and a pattern resemble when either contains the other. */
  predicate Resembles(key: string, pattern: string) { Contains(key, pattern) || Contains(pattern, key) }

  predicate ResemblesAny(key: string, names: seq<string>) {
    exists i :: 0 <= i < |names| && Resembles(key, names[i])
  }

  /** The first sheet, in workbook order, whose name resembles one of `names`. */
  function FuzzySheet<D>(sheets: Dict<string, D>, names: seq<string>): Option<D> {
    if sheets == [] then None
    else if ResemblesAny(sheets[0].0, names) then Some(sheets[0].1)
    else FuzzySheet(sheets[1..], names)
  }

  /** Python `find_zaitu_worksheet`: an exact name first, then the first resembling sheet. */
  function FindWorksheet<D>(sheets: Dict<string, D>, kind: string): Option<D> {
    match ExactSheet(sheets, NamesFor(kind))
    case Some(d) => Some(d)
    case None => FuzzySheet(sheets, NamesFor(kind))
  }

  /** The exact search returns the sheet of the first name, in the given order, that the workbook has. */
  lemma {:induction false} ExactFirst<D>(sheets: Dict<string, D>, names: seq<string>, i: nat)
    requires i < |names| && names[i] in Keys(sheets)
    requires forall j :: 0 <= j < i ==> names[j] !in Keys(sheets)
    ensures ExactSheet(sheets, names) == Get(sheets, names[i])
  {
    if i > 0 {
      ExactFirst(sheets, names[1..], i - 1);
    }
  }

  /** The exact search finds nothing exactly when the workbook has none of the names. */
  lemma {:induction false} ExactNone<D>(sheets: Dict<string, D>, names: seq<string>)
    ensures ExactSheet(sheets, names).None? <==> forall j :: 0 <= j < |names| ==> names[j] !in Keys(sheets)
  {
    if names != [] {
      ExactNone(sheets, names[1..]);
      assert forall j :: 1 <= j < |names| ==> names[j] == names[1..][j - 1];
    }
  }

  /** The fuzzy search returns the first sheet, in workbook order, that resembles a name. */
  lemma {:induction false} FuzzyFirst<D>(sheets: Dict<string, D>, names: seq<string>, i: nat)
    requires i < |sheets| && ResemblesAny(sheets[i].0, names)
    requires forall j :: 0 <= j < i ==> !ResemblesAny(sheets[j].0, names)
    ensures FuzzySheet(sheets, names) == Some(sheets[i].1)
  {
    if i > 0 {
      assert !ResemblesAny(sheets[0].0, names);
      FuzzyFirst(sheets[1..], names, i - 1);
    }
  }

  /** The fuzzy search finds nothing exactly when no sheet resembles a name. */
  lemma {:induction false} FuzzyNone<D>(sheets: Dict<string, D>, names: seq<string>)
    ensures FuzzySheet(sheets, names).None? <==> forall j :: 0 <= j < |sheets| ==> !ResemblesAny(sheets[j].0, names)
  {
    if sheets != [] {
      FuzzyNone(sheets[1..], names);
      assert forall j :: 1 <= j < |sheets| ==> sheets[j] == sheets[1..][j - 1];
    }
  }

  /** An exact name wins over any sheet that merely resembles a name, even one placed earlier. */
  lemma FindPrefersExact<D>(sheets: Dict<string, D>, kind: string, i: nat)
    requires i < |NamesFor(kind)| && NamesFor(kind)[i] in Keys(sheets)
    requires forall j :: 0 <= j < i ==> NamesFor(kind)[j] !in Keys(sheets)
    ensures FindWorksheet(sheets, kind) == Get(sheets, NamesFor(kind)[i])
  {
    ExactFirst(sheets, NamesFor(kind), i);
  }

  /**
   * Nothing is found exactly when no sheet name resembles one of the kind's
   * names: every exact name resembles itself, so the exact step never finds a
   * sheet the fuzzy step would miss. An unknown kind finds nothing.
   */
  lemma FindNone<D>(sheets: Dict<string, D>, kind: string)
    ensures FindWorksheet(sheets, kind).None? <==> forall j :: 0 <= j < |sheets| ==> !ResemblesAny(sheets[j].0, NamesFor(kind))
    ensures kind !in SheetNames ==> FindWorksheet(sheets, kind).None?
  {
    var names := NamesFor(kind);
    ExactNone(sheets, names);
    FuzzyNone(sheets, names);
    if ExactSheet(sheets, names).Some? {
      var n :| n in names && n in Keys(sheets);
      var j :| 0 <= j < |sheets| && sheets[j].0 == n by {
        KeysAt(sheets);
        var k :| 0 <= k < |Keys(sheets)| && Keys(sheets)[k] == n;
        assert sheets[k].0 == n;
      }
      ContainsAt(n, n, 0);
      var m :| 0 <= m < |names| && names[m] == n;
      assert Resembles(sheets[j].0, names[m]);
    }
  }

  /** An example: the exact sheet 机票 is chosen over 机票交易汇总, which comes first and contains 机票. */
  lemma ExactBeatsEarlierResemblance()
    ensures FindWorksheet([("机票交易汇总", 1), ("机票", 2)], "flight") == Some(2)
  {
    var sheets := [("机票交易汇总", 1), ("机票", 2)];
    assert NamesFor("flight")[0] == "机票";
    assert Keys(sheets) == ["机票交易汇总", "机票"];
    FindPrefersExact(sheets, "flight", 0);
  }

  // ------------------------------------------------------------ flights

  /** The route split of the Zaitu flight sheet: only a non-empty route with a hyphen and at least two parts gives cities. */
  function ZaituRoute(route: string): (string, string) {
    if route != "" && '-' in route then
      var parts := Split(route, '-');
      if |parts| >= 2 then (Strip(parts[0]), Strip(parts[1])) else ("", "")
    else ("", "")
  }

  /** The extra guards change nothing: the route is split as on the Ctrip flight sheet. */
  lemma ZaituRouteAsCtrip(route: string)
    ensures ZaituRoute(route) == RouteCities(route)
  {
    if '-' in route {
      CountCharPositive(route, '-');
    }
  }

  /**
   * Python `extract_zaitu_flight_record`. Nothing for a row of 34 columns or
   * fewer, when both the passenger (column 17) and the booker (6) are blank, or
   * when the name reads as a date, a total or a number. The price is the total
   * (33), or the sum (31) when the total does not parse.
   */
  function ExtractFlight(row: Row, roster: Roster.Loaded, num: string -> Option<int>): Option<FlightRecord> {
    if |row| <= 33 then None
    else match NameFrom(row, 17, 6)
      case None => None
      case Some(passenger) =>
        if NotAPassenger(passenger, TotalWords) then None
        else
          var cities := ZaituRoute(TextAt(row, 15));
          Some(FlightRecord(
            Source, passenger, DeptOf(roster, passenger), TextAt(row, 5),
            TextAt(row, 8), TextAt(row, 13), cities.0, cities.1,
            AmountOrFallback(row, 33, 31, num), TextAt(row, 9), TextAt(row, 7), CellAt(row, 1)))
  }

  /**
   * A flight row is kept exactly when it is wide enough and names a plausible
   * passenger or booker; unlike the other sheets, no flight number, time or
   * price is required.
   */
  lemma FlightKeptExactly(row: Row, roster: Roster.Loaded, num: string -> Option<int>)
    ensures ExtractFlight(row, roster, num).Some? <==>
      |row| > 33 && (Filled(row, 17) || Filled(row, 6)) && !NotAPassenger(NameFrom(row, 17, 6).value, TotalWords)
    ensures ExtractFlight(row, roster, num).Some? ==>
      var f := ExtractFlight(row, roster, num).value;
      Trimmed(f.passenger) && f.price == AmountOrFallback(row, 33, 31, num)
      && (f.fromCity, f.toCity) == RouteCities(TextAt(row, 15))
  {
    ZaituRouteAsCtrip(TextAt(row, 15));
  }

  // ------------------------------------------------------------ hotels

  /**
   * Python `extract_zaitu_hotel_record`. Nothing for a row of 20 columns or
   * fewer or when both the guest (column 13) and the booker (6) are blank. The
   * price is the amount (16), or the total (19) when the amount does not parse.
   */
  function ExtractHotel(row: Row, roster: Roster.Loaded, num: string -> Option<int>): Option<HotelRecord> {
    if |row| <= 19 then None
    else match NameFrom(row, 13, 6)
      case None => None
      case Some(employee) =>
        Some(HotelRecord(
          Source, employee, DeptOf(roster, employee),
          TextAt(row, 10), TextAt(row, 11), TextAt(row, 7), "", TextAt(row, 8), TextAt(row, 9),
          AmountOrFallback(row, 16, 19, num), false, 0, 0, CellAt(row, 1)))
  }

  /** A hotel row is kept exactly when it is wide enough and names a guest or a booker; its price keeps its sign. */
  lemma HotelKeptExactly(row: Row, roster: Roster.Loaded, num: string -> Option<int>)
    ensures ExtractHotel(row, roster, num).Some? <==> |row| > 19 && (Filled(row, 13) || Filled(row, 6))
    ensures ExtractHotel(row, roster, num).Some? ==>
      var h := ExtractHotel(row, roster, num).value;
      Trimmed(h.employee) && h.price == AmountOrFallback(row, 16, 19, num) && h.district == ""
  {
  }

  // ------------------------------------------------------------ trains

  /**
   * Python `extract_zaitu_train_record`. Nothing for a row of 27 columns or
   * fewer, when both the traveller (column 19) and the booker (6) are blank,
   * or when the price, the subtotal (24) or else the total (26), is 0.
   */
  function ExtractTrain(row: Row, roster: Roster.Loaded, num: string -> Option<int>): Option<TrainRecord> {
    if |row| <= 26 then None
    else match NameFrom(row, 19, 6)
      case None => None
      case Some(employee) =>
        var price := AmountOrFallback(row, 24, 26, num);
        if price == 0 then None
        else
          Some(TrainRecord(
            Source, employee, DeptOf(roster, employee),
            TextAt(row, 7), TextAt(row, 8), TextAt(row, 11), TextAt(row, 9), TextAt(row, 10),
            price, CellAt(row, 1)))
  }

  /** A train row is kept exactly when it is wide enough, names a traveller or booker and has a non-zero price. */
  lemma TrainKeptExactly(row: Row, roster: Roster.Loaded, num: string -> Option<int>)
    ensures ExtractTrain(row, roster, num).Some? <==>
      |row| > 26 && (Filled(row, 19) || Filled(row, 6)) && AmountOrFallback(row, 24, 26, num) != 0
    ensures ExtractTrain(row, roster, num).Some? ==>
      var t := ExtractTrain(row, roster, num).value;
      Trimmed(t.employee) && t.price != 0 && t.price == AmountOrFallback(row, 24, 26, num)
  {
  }

  // ------------------------------------------------------------ rides

  /** A row of the ride sheet: its cells in column order, each under its column name. */
  type NamedRow = Dict<string, Option<string>>

  /** What `row.get(name)` gives: nothing for a missing column, NaN for an empty cell, else the cell's text. */
  datatype Value = Missing | NaN | Cell(text: string)

  function Lookup(row: NamedRow, name: string): Value {
    match Get(row, name)
    case None => Missing
    case Some(cell) => if cell.Some? then Cell(cell.value) else NaN
  }

  /** `row.get(name, '')`. */
  function LookupOr(row: NamedRow, name: string): Value {
    if Lookup(row, name).Missing? then Cell("") else Lookup(row, name)
  }

  /** Python truthiness of a value: NaN is true, a missing value and an empty text are false. */
  predicate Truthy(v: Value) { v.NaN? || (v.Cell? && v.text != "") }

  /** Python `str` of a value. */
  function Str(v: Value): string {
    match v
    case Missing => "None"
    case NaN => "nan"
    case Cell(s) => s
  }

  /** `row.get(a) or row.get(b) or ...`: the first true value, else the last. */
  function FirstOf(row: NamedRow, names: seq<string>): Value
    requires names != []
  {
    var v := Lookup(row, names[0]);
    if |names| == 1 || Truthy(v) then v else FirstOf(row, names[1..])
  }

  /** `row.get(a, '') or row.get(b, '') or ...`. */
  function FirstOfOr(row: NamedRow, names: seq<string>): Value
    requires names != []
  {
    var v := LookupOr(row, names[0]);
    if |names| == 1 || Truthy(v) then v else FirstOfOr(row, names[1..])
  }

  /** `str(row.get(a, '') or ...).strip() if pd.notna(row.get(a) or ...) else ''`. */
  function GuardedText(row: NamedRow, names: seq<string>): string
    requires names != []
  {
    if FirstOf(row, names).Cell? then Strip(Str(FirstOfOr(row, names))) else ""
  }

  /** The first true value among the named columns, if any. */
  function FirstTruthy(row: NamedRow, names: seq<string>): Option<Value> {
    if names == [] then None
    else if Truthy(Lookup(row, names[0])) then Some(Lookup(row, names[0]))
    else FirstTruthy(row, names[1..])
  }

  /** Both `or` chains stop at the first true value; without one, the defaulted chain ends in ''. */
  lemma {:induction false} ChainsAgree(row: NamedRow, names: seq<string>)
    requires names != []
    ensures FirstTruthy(row, names).Some? ==>
      FirstOf(row, names) == FirstTruthy(row, names).value && FirstOfOr(row, names) == FirstTruthy(row, names).value
    ensures FirstTruthy(row, names).None? ==> !Truthy(FirstOf(row, names)) && FirstOfOr(row, names) == Cell("")
    ensures FirstTruthy(row, names).Some? ==> Truthy(FirstTruthy(row, names).value)
  {
    if |names| > 1 && !Truthy(Lookup(row, names[0])) {
      ChainsAgree(row, names[1..]);
    }
  }

  /**
   * The guarded text is the stripped text of the first true column, and ''
   * when that column is an empty cell (NaN) or no column is true.
   */
  lemma GuardedTextFirstTruthy(row: NamedRow, names: seq<string>)
    requires names != []
    ensures GuardedText(row, names) ==
      if FirstTruthy(row, names).Some? && FirstTruthy(row, names).value.Cell? then Strip(FirstTruthy(row, names).value.text) else ""
  {
    ChainsAgree(row, names);
    assert Strip("") == "";
  }

  const PassengerColumns: seq<string> := ["乘车人", "姓名", "员工姓名"]
  const PickupColumns: seq<string> := ["上车时间", "开始时间", "用车开始时间"]
  const DropoffColumns: seq<string> := ["下车时间", "结束时间", "用车结束时间"]
  const CarTypeColumns: seq<string> := ["用车类型", "车型"]
  const OriginColumns: seq<string> := ["出发地（城市/区县/具体地址）", "出发地", "上车地点", "起点"]
  const DestinationColumns: seq<string> := ["目的地（城市/区县/具体地址）", "目的地", "下车地点", "终点"]
  const OrderColumn: string := "订单号"

  /**
   * A place parsed from "city/district/address": the stripped parts by
   * position, a key only for a part that exists; an empty text stays an
   * empty city.
   */
  function AddressOf(raw: string): (p: Place)
    ensures p.district.Some? <==> raw != "" && CountChar(raw, '/') >= 1
    ensures p.address.Some? <==> raw != "" && CountChar(raw, '/') >= 2
  {
    if raw == "" then Place("", None, None)
    else
      var parts := Split(raw, '/');
      Place(Strip(parts[0]),
        if |parts| >= 2 then Some(Strip(parts[1])) else None,
        if |parts| >= 3 then Some(Strip(parts[2])) else None)
  }

  /**
   * The place as the extractor fills it in: the whole text as the city, then,
   * for a non-empty text, the city, district and address from the parts that
   * exist.
   */
  method SplitAddress(raw: string) returns (place: Place)
    ensures place == AddressOf(raw)
  {
    place := Place(raw, None, None);
    if raw != "" {
      var parts := Split(raw, '/');
      if |parts| >= 1 {
        place := place.(city := Strip(parts[0]));
      }
      if |parts| >= 2 {
        place := place.(district := Some(Strip(parts[1])));
      }
      if |parts| >= 3 {
        place := place.(address := Some(Strip(parts[2])));
      }
    }
  }

  /** Three slash-free parts give city, district and address. */
  lemma AddressOfParts(a: string, b: string, c: string)
    requires '/' !in a && '/' !in b && '/' !in c
    ensures AddressOf(a + ['/'] + (b + ['/'] + c)) == Place(Strip(a), Some(Strip(b)), Some(Strip(c)))
  {
    assert Lacks(a, '/') && Lacks(b, '/') && Lacks(c, '/');
    SplitThree(a, b, c);
    AddressOfThree(a + ['/'] + (b + ['/'] + c));
  }

  /** Text after a third slash is dropped. */
  lemma AddressDropsRest(a: string, b: string, c: string, rest: string)
    requires '/' !in a && '/' !in b && '/' !in c
    ensures AddressOf(a + ['/'] + (b + ['/'] + (c + ['/'] + rest))) == Place(Strip(a), Some(Strip(b)), Some(Strip(c)))
  {
    assert Lacks(a, '/') && Lacks(b, '/') && Lacks(c, '/');
    SplitThreeMore(a, b, c, rest);
    AddressOfThree(a + ['/'] + (b + ['/'] + (c + ['/'] + rest)));
  }

  /** A text of three parts or more gives a place from its first three. */
  lemma AddressOfThree(raw: string)
    requires raw != "" && |Split(raw, '/')| >= 3
    ensures var ps := Split(raw, '/'); AddressOf(raw) == Place(Strip(ps[0]), Some(Strip(ps[1])), Some(Strip(ps[2])))
  {
  }

  /** Three slash-free parts split back into those parts. */
  lemma SplitThree(a: string, b: string, c: string)
    requires Lacks(a, '/') && Lacks(b, '/') && Lacks(c, '/')
    ensures Split(a + ['/'] + (b + ['/'] + c), '/') == [a, b, c]
  {
    SplitTwo(b, c, '/');
    SplitPrefix(a, b + ['/'] + c);
  }

  /** What follows a third slash leaves the first three parts as they are. */
  lemma SplitThreeMore(a: string, b: string, c: string, rest: string)
    requires Lacks(a, '/') && Lacks(b, '/') && Lacks(c, '/')
    ensures var ps := Split(a + ['/'] + (b + ['/'] + (c + ['/'] + rest)), '/');
      |ps| >= 3 && ps[0] == a && ps[1] == b && ps[2] == c
  {
    SplitPrefix(a, b + ['/'] + (c + ['/'] + rest));
    SplitPrefix(b, c + ['/'] + rest);
    SplitPrefix(c, rest);
  }

  /** A slash-free first part comes off as the first piece of the split. */
  lemma SplitPrefix(a: string, rest: string)
    requires Lacks(a, '/')
    ensures Split(a + ['/'] + rest, '/') == [a] + Split(rest, '/')
  {
    var s := a + ['/'] + rest;
    assert s[..|a|] == a;
    IndexOfAt(s, '/', |a|);
    SplitAtFirst(s, '/', |a|);
    assert s[|a| + 1..] == rest;
  }

  /** A text without a slash is all city. */
  lemma AddressOfPlain(raw: string)
    requires raw != "" && '/' !in raw
    ensures AddressOf(raw) == Place(Strip(raw), None, None)
  {
    assert Lacks(raw, '/');
    CountCharAbsent(raw, '/');
  }

  /**
   * The ride record, as `extract_zaitu_car_record` builds it: nothing without
   * a true passenger value that is not NaN, or with an empty pick-up time.
   * Provider (column 19), distance (29) and amount (38) are read by position,
   * the rest by name.
   */
  function CarOf(row: NamedRow, roster: Roster.Loaded, num: string -> Option<int>): Option<CarRecord> {
    var p := FirstOf(row, PassengerColumns);
    if !Truthy(p) || p.NaN? then None
    else
      var passenger := Strip(p.text);
      var cells := Values(row);
      var pickup := GuardedText(row, PickupColumns);
      if pickup == "" then None
      else
        Some(CarRecord(
          Source, passenger, DeptOf(roster, passenger),
          pickup, GuardedText(row, DropoffColumns), GuardedText(row, CarTypeColumns),
          if Present(cells, 19) then Strip(cells[19].value) else "",
          AddressOf(Strip(Str(FirstOfOr(row, OriginColumns)))),
          AddressOf(Strip(Str(FirstOfOr(row, DestinationColumns)))),
          AmountAt(cells, 29, num), AmountAt(cells, 38, num),
          if Lookup(row, OrderColumn).Cell? then Some(Lookup(row, OrderColumn).text) else None))
  }

  /** Python `extract_zaitu_car_record`: the record is built, then its places are split in place. */
  method ExtractCar(row: NamedRow, roster: Roster.Loaded, num: string -> Option<int>) returns (r: Option<CarRecord>)
    ensures r == CarOf(row, roster, num)
  {
    var p := FirstOf(row, PassengerColumns);
    if !Truthy(p) || p.NaN? {
      return None;
    }
    var passenger := Strip(p.text);
    var cells := Values(row);
    var provider := "";
    if Present(cells, 19) {
      provider := Strip(cells[19].value);
    }
    var distance := AmountAt(cells, 29, num);
    var totalAmount := AmountAt(cells, 38, num);
    var pickup := GuardedText(row, PickupColumns);
    var dropoff := GuardedText(row, DropoffColumns);
    if pickup == "" {
      return None;
    }
    var record := CarRecord(
      Source, passenger, DeptOf(roster, passenger), pickup, dropoff, GuardedText(row, CarTypeColumns), provider,
      Place(Strip(Str(FirstOfOr(row, OriginColumns))), None, None),
      Place(Strip(Str(FirstOfOr(row, DestinationColumns))), None, None),
      distance, totalAmount, None);
    var origin := SplitAddress(Strip(Str(FirstOfOr(row, OriginColumns))));
    record := record.(origin := origin);
    var destination := SplitAddress(Strip(Str(FirstOfOr(row, DestinationColumns))));
    record := record.(destination := destination);
    if Lookup(row, OrderColumn).Cell? {
      record := record.(orderNo := Some(Lookup(row, OrderColumn).text));
    }
    r := Some(record);
  }

  /**
   * A ride row is kept exactly when the first true passenger column holds a
   * text and the first true pick-up column holds a text that is not blank; the
   * pick-up time is that text, stripped.
   */
  lemma CarKeptExactly(row: NamedRow, roster: Roster.Loaded, num: string -> Option<int>)
    ensures CarOf(row, roster, num).Some? <==>
      FirstTruthy(row, PassengerColumns).Some? && FirstTruthy(row, PassengerColumns).value.Cell?
      && FirstTruthy(row, PickupColumns).Some? && FirstTruthy(row, PickupColumns).value.Cell?
      && Strip(FirstTruthy(row, PickupColumns).value.text) != ""
    ensures CarOf(row, roster, num).Some? ==>
      CarOf(row, roster, num).value.passenger == Strip(FirstTruthy(row, PassengerColumns).value.text)
      && CarOf(row, roster, num).value.pickupTime == Strip(FirstTruthy(row, PickupColumns).value.text)
  {
    CarKeptShape(row, roster, num);
    ChainsAgree(row, PassengerColumns);
    GuardedTextFirstTruthy(row, PickupColumns);
  }

  /** The ride record in terms of the `or` chains themselves. */
  lemma CarKeptShape(row: NamedRow, roster: Roster.Loaded, num: string -> Option<int>)
    ensures CarOf(row, roster, num).Some? <==>
      Truthy(FirstOf(row, PassengerColumns)) && FirstOf(row, PassengerColumns).Cell? && GuardedText(row, PickupColumns) != ""
    ensures CarOf(row, roster, num).Some? ==>
      CarOf(row, roster, num).value.passenger == Strip(FirstOf(row, PassengerColumns).text)
      && CarOf(row, roster, num).value.pickupTime == GuardedText(row, PickupColumns)
  {
  }

  /** An empty cell in the first origin column that is set makes the city the text "nan", with no district or address. */
  lemma NaNOriginCity(row: NamedRow, roster: Roster.Loaded, num: string -> Option<int>)
    requires CarOf(row, roster, num).Some? && FirstTruthy(row, OriginColumns) == Some(NaN)
    ensures CarOf(row, roster, num).value.origin == Place("nan", None, None)
  {
    ChainsAgree(row, OriginColumns);
    var s := "nan";
    StripUnpadded(s) by { LetterNotSpace('n'); }
    AddressOfPlain(s);
  }
}
