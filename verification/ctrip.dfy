/**
 * The Ctrip (携程商旅) extractors of scripts/process_ctrip.py: the airline and
 * cabin code tables, and one function per sheet kind turning a row into a
 * record or into nothing. Rows are those after the two header rows.
 */
module Ctrip {
  import opened Wrappers
  import opened Text
  import opened Rows
  import opened Records
  import Roster

  const Source: string := "携程商旅"

  /**
   * Airline names by the two-letter code that starts a flight number. "GY" is
   * listed twice; as in a Python dict display, the later name (桂林航空) stands.
   */
  const AirlineCodes: map<string, string> := map[
    "CA" := "中国国航", "MU" := "中国东方航空", "CZ" := "中国南方航空", "3U" := "四川航空",
    "ZH" := "深圳航空", "HU" := "海南航空", "FM" := "上海航空", "KN" := "中国联合航空",
    "JD" := "金鹏航空", "MF" := "厦门航空", "SC" := "山东航空", "HO" := "吉祥航空",
    "OQ" := "重庆航空", "TV" := "西藏航空", "8L" := "祥鹏航空", "AQ" := "九元航空",
    "GS" := "天津航空", "NS" := "河北航空", "BK" := "奥凯航空", "EU" := "成都航空",
    "GY" := "多彩贵州航空", "DZ" := "深圳东海航空", "G5" := "华夏航空", "PN" := "西部航空",
    "QW" := "青岛航空", "RY" := "江西航空", "UQ" := "乌鲁木齐航空", "Y8" := "扬子江航空",
    "GY" := "桂林航空", "DR" := "瑞丽航空", "A6" := "红土航空", "GT" := "大新华航空",
    "VN" := "越南航空", "GJ" := "长龙航空", "9C" := "春秋航空", "CX" := "国泰航空",
    "KA" := "国泰港龙航空", "HX" := "香港航空", "UO" := "香港快运航空"]

  const Economy: string := "经济舱"
  const Business: string := "商务舱"
  const FirstClass: string := "头等舱"

  /** Cabin class by booking-class letter. */
  const CabinCodes: map<string, string> := map[
    "Y" := Economy, "B" := Economy, "M" := Economy, "H" := Economy,
    "K" := Economy, "L" := Economy, "Q" := Economy, "E" := Economy,
    "C" := Business, "D" := Business, "J" := Business,
    "F" := FirstClass, "A" := FirstClass, "P" := Economy,
    "W" := Economy, "S" := Economy, "T" := Economy]

  /** The words the flight sheet refuses as a passenger: totals and the English header cells. */
  const FlightRejects: seq<string> := TotalWords + ["ExchangeTime", "ETD", "PassengerName"]

  /** The words the hotel sheet refuses as a guest: header cells and totals. */
  const HotelRejects: seq<string> := ["clients", "入住人", "小计", "合计", "总计"]

  // ------------------------------------------------------------ code tables

  /**
   * Python `infer_airline_from_flight_no`: the airline named by the first two
   * characters, upper-cased; '' for a flight number shorter than two
   * characters or an unknown code.
   */
  function InferAirline(flightNo: string): (r: string)
    ensures |flightNo| < 2 ==> r == ""
    ensures r == "" || r in AirlineCodes.Values
  {
    if flightNo == "" || |flightNo| < 2 then ""
    else
      var code := Upper(flightNo[..2]);
      if code in AirlineCodes then AirlineCodes[code] else ""
  }

  /** The airline depends on the first two characters only, whatever their case. */
  lemma AirlineByCode(f: string, g: string)
    requires |f| >= 2 && |g| >= 2 && Upper(f[..2]) == Upper(g[..2])
    ensures InferAirline(f) == InferAirline(g)
  {
  }

  /** Lower-casing a flight number does not change its airline. */
  lemma AirlineCaseless(f: string)
    ensures InferAirline(Lower(f)) == InferAirline(f)
  {
    if |f| >= 2 {
      assert Upper(Lower(f)[..2]) == Upper(f[..2]) by {
        assert UpperChar(LowerChar(f[0])) == UpperChar(f[0]);
        assert UpperChar(LowerChar(f[1])) == UpperChar(f[1]);
      }
    }
  }

  /** The code "GY" is listed twice and names 桂林航空, the later entry, in either case. */
  lemma GuilinHoldsGY()
    ensures InferAirline("GY8888") == "桂林航空" && InferAirline("gy8888") == "桂林航空"
  {
    assert Upper("GY8888"[..2]) == "GY";
    assert Upper("gy8888"[..2]) == "GY";
  }

  /**
   * Python `convert_cabin_code`: the class named by the stripped, upper-cased
   * code; '' for an empty code; an unknown code comes back unchanged.
   */
  function ConvertCabin(code: string): (r: string)
    ensures code == "" ==> r == ""
    ensures r == code || r in {Economy, Business, FirstClass}
  {
    if code == "" then ""
    else
      var c := Upper(Strip(code));
      if c in CabinCodes then CabinCodes[c] else code
  }

  /** A single booking-class letter, in either case, converts to the class the table gives it. */
  lemma CabinLetter(c: char)
    requires 'a' <= c <= 'z' || 'A' <= c <= 'Z'
    ensures [UpperChar(c)] in CabinCodes ==> ConvertCabin([c]) == CabinCodes[[UpperChar(c)]]
    ensures [UpperChar(c)] !in CabinCodes ==> ConvertCabin([c]) == [c]
  {
    LetterNotSpace(c);
    StripUnpadded([c]);
    assert Upper([c]) == [UpperChar(c)];
  }

  /** A class name is not a code, so converting twice is converting once. */
  lemma ConvertCabinIdempotent(code: string)
    ensures ConvertCabin(ConvertCabin(code)) == ConvertCabin(code)
  {
    var r := ConvertCabin(code);
    if r != code {
      ClassNameStays(r);
    }
  }

  /** Each class name converts to itself: it has no white space at its ends and no code is three characters long. */
  lemma ClassNameStays(name: string)
    requires name in {Economy, Business, FirstClass}
    ensures ConvertCabin(name) == name
  {
    ClassNameUnpadded(name);
    StripUnpadded(name);
    assert Upper(name) == name;
    assert |name| == 3;
    assert forall k :: k in CabinCodes ==> |k| == 1;
  }

  /** A class name starts and ends with a character that is not white space. */
  lemma ClassNameUnpadded(name: string)
    requires name in {Economy, Business, FirstClass}
    ensures name != [] && !IsSpace(name[0]) && !IsSpace(name[|name| - 1])
  {
    OneOfIn(name[0], SpaceChars);
    OneOfIn(name[|name| - 1], SpaceChars);
  }

  // ------------------------------------------------------------ flights

  /**
   * Python `extract_ctrip_flight_record`. Nothing for a row of 15 columns or
   * fewer, a blank passenger (column 5) or one that reads as a date, a total,
   * a header or a number; nothing without a departure time (7) or flight number
   * (12), or with a zero price (14, 0 when missing or unparsable). The route
   * (11) gives the cities, the booking date (6) falls back to the departure.
   */
  function ExtractFlight(row: Row, roster: Roster.Loaded, num: string -> Option<int>): Option<FlightRecord> {
    if |row| <= 14 || !Filled(row, 5) then None
    else
      var passenger := Strip(row[5].value);
      if NotAPassenger(passenger, FlightRejects) then None
      else
        var departTime := TextAt(row, 7);
        var cities := RouteCities(TextAt(row, 11));
        var flightNo := TextAt(row, 12);
        if !Given(departTime) || !Given(flightNo) then None
        else
          var airline := InferAirline(flightNo);
          var price := AmountAt(row, 14, num);
          if price == 0 then None
          else
            Some(FlightRecord(
              Source, passenger, DeptOf(roster, passenger),
              if Present(row, 6) then row[6].value else departTime,
              flightNo, departTime, cities.0, cities.1, price,
              ConvertCabin(TextAt(row, 13)), airline, CellAt(row, 0)))
  }

  /** What every Ctrip flight record satisfies. */
  predicate PlausibleFlight(f: FlightRecord) {
    && f.source == Source
    && Trimmed(f.passenger) && !NotAPassenger(f.passenger, FlightRejects)
    && Given(f.flightNo) && Given(f.departTime) && f.price != 0
    && (f.airline == "" || f.airline in AirlineCodes.Values)
    && '-' !in f.fromCity && '-' !in f.toCity
  }

  /**
   * A row is kept exactly when it is wide enough, names a plausible passenger,
   * has a departure time and a flight number and a non-zero price; the price
   * is kept as parsed, so a refund stays negative.
   */
  lemma FlightKeptExactly(row: Row, roster: Roster.Loaded, num: string -> Option<int>)
    ensures ExtractFlight(row, roster, num).Some? <==>
      |row| > 14 && Filled(row, 5) && !NotAPassenger(Strip(row[5].value), FlightRejects)
      && Given(TextAt(row, 7)) && Given(TextAt(row, 12)) && AmountAt(row, 14, num) != 0
    ensures ExtractFlight(row, roster, num).Some? ==>
      ExtractFlight(row, roster, num).value.price == AmountAt(row, 14, num)
      && ExtractFlight(row, roster, num).value.passenger == Strip(row[5].value)
  {
  }

  /** Every flight record the extractor writes is plausible. */
  lemma FlightPlausible(row: Row, roster: Roster.Loaded, num: string -> Option<int>)
    ensures ExtractFlight(row, roster, num).Some? ==> PlausibleFlight(ExtractFlight(row, roster, num).value)
  {
    if ExtractFlight(row, roster, num).Some? {
      StripIdempotent(row[5].value);
      RouteCitiesTrimmed(TextAt(row, 11));
    }
  }

  /** A route of two names around a hyphen fills in both cities. */
  lemma FlightRoute(row: Row, roster: Roster.Loaded, num: string -> Option<int>, a: string, b: string)
    requires ExtractFlight(row, roster, num).Some? && TextAt(row, 11) == a + "-" + b && '-' !in a && '-' !in b
    ensures ExtractFlight(row, roster, num).value.fromCity == Strip(a)
    ensures ExtractFlight(row, roster, num).value.toCity == Strip(b)
  {
    RouteOfTwo(a, b);
  }

  // ------------------------------------------------------------ hotels

  /**
   * Python `extract_ctrip_hotel_record`. Nothing for a row of 19 columns or
   * fewer, a blank guest (column 4) or a header or total word there; the
   * amount (18) is stored without its sign.
   */
  function ExtractHotel(row: Row, roster: Roster.Loaded, num: string -> Option<int>): (r: Option<HotelRecord>)
    ensures r.Some? ==> r.value.price >= 0
  {
    if |row| <= 18 || !Filled(row, 4) then None
    else
      var employee := Strip(row[4].value);
      if employee in HotelRejects then None
      else
        var price := AmountAt(row, 18, num);
        Some(HotelRecord(
          Source, employee, DeptOf(roster, employee),
          TextAt(row, 7), TextAt(row, 8), TextAt(row, 9), "", TextAt(row, 10), TextAt(row, 12),
          Abs(price), false, 0, 0, CellAt(row, 0)))
  }

  /**
   * A hotel row is kept exactly when it is wide enough and names a guest who
   * is not a header or total word; unlike flights, a zero amount is kept, and
   * a refund is stored as its size.
   */
  lemma HotelKeptExactly(row: Row, roster: Roster.Loaded, num: string -> Option<int>)
    ensures ExtractHotel(row, roster, num).Some? <==>
      |row| > 18 && Filled(row, 4) && Strip(row[4].value) !in HotelRejects
    ensures ExtractHotel(row, roster, num).Some? ==>
      var h := ExtractHotel(row, roster, num).value;
      Trimmed(h.employee) && h.district == "" && !h.isShared && h.personalOverage == 0 && h.miscFee == 0
      && (AmountAt(row, 18, num) < 0 ==> h.price == -AmountAt(row, 18, num))
      && (AmountAt(row, 18, num) >= 0 ==> h.price == AmountAt(row, 18, num))
  {
    if ExtractHotel(row, roster, num).Some? {
      StripIdempotent(row[4].value);
    }
  }

  // ------------------------------------------------------------ rides

  /** Python `extract_ctrip_car_record`: Ctrip rides are not extracted. */
  function ExtractCar(row: Row, roster: Roster.Loaded): (r: Option<CarRecord>)
    ensures r.None?
  {
    None
  }
}
