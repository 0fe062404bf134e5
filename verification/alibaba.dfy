/**
 * The Alibaba (阿里商旅) extractors of scripts/process_alibaba.py: flights,
 * train trips and car rides, each from its own sheet, with a passenger column
 * that falls back to the booker's. Rows are those after the header and the
 * total row.
 */
module Alibaba {
  import opened Wrappers
  import opened Text
  import opened Rows
  import opened Records
  import Roster

  const Source: string := "阿里商旅"

  // ------------------------------------------------------------ flights

  /**
   * Python `extract_flight_record`. Nothing for a row of 36 columns or fewer,
   * when both the traveller (column 5) and the booker (3) are blank, or when
   * the name reads as a date, a total or a number; nothing without a flight
   * number (24), a departure date (14) and both cities (18, 19). The price
   * (35) is 0 when missing or unparsable, and such a flight is kept. The
   * booking text is column 3 (the booker), else the departure date.
   */
  function ExtractFlight(row: Row, roster: Roster.Loaded, num: string -> Option<int>): Option<FlightRecord> {
    if |row| <= 35 then None
    else match NameFrom(row, 5, 3)
      case None => None
      case Some(passenger) =>
        if NotAPassenger(passenger, TotalWords) then None
        else
          var departDate := TextAt(row, 14);
          var departTime := TextAt(row, 15);
          var flightNo := TextAt(row, 24);
          var fromCity := TextAt(row, 18);
          var toCity := TextAt(row, 19);
          if !Given(flightNo) || !Given(departDate) then None
          else if !Given(fromCity) || !Given(toCity) then None
          else
            Some(FlightRecord(
              Source, passenger, DeptOf(roster, passenger),
              if Present(row, 3) then row[3].value else departDate,
              flightNo, Joined(departDate, departTime), fromCity, toCity,
              AmountAt(row, 35, num), TextAt(row, 26), TextAt(row, 23), CellAt(row, 1)))
  }

  /**
   * A flight row is kept exactly when it is wide enough, names a plausible
   * traveller (or booker), a flight number, a departure date and both cities;
   * there is no price condition, so a zero or unparsable price is kept as 0.
   */
  lemma FlightKeptExactly(row: Row, roster: Roster.Loaded, num: string -> Option<int>)
    ensures ExtractFlight(row, roster, num).Some? <==>
      |row| > 35 && (Filled(row, 5) || Filled(row, 3)) && !NotAPassenger(NameFrom(row, 5, 3).value, TotalWords)
      && Given(TextAt(row, 24)) && Given(TextAt(row, 14)) && Given(TextAt(row, 18)) && Given(TextAt(row, 19))
    ensures ExtractFlight(row, roster, num).Some? ==>
      var f := ExtractFlight(row, roster, num).value;
      f.price == AmountAt(row, 35, num) && Trimmed(f.passenger)
      && (Filled(row, 5) ==> f.passenger == Strip(row[5].value))
      && (!Filled(row, 5) ==> f.passenger == Strip(row[3].value))
  {
  }

  /**
   * The departure is the date and the time joined by a space: just the date
   * when the time is missing, both when both are trimmed.
   */
  lemma FlightDeparture(row: Row, roster: Roster.Loaded, num: string -> Option<int>)
    requires ExtractFlight(row, roster, num).Some? && Trimmed(TextAt(row, 14))
    ensures !Present(row, 15) ==> ExtractFlight(row, roster, num).value.departTime == TextAt(row, 14)
    ensures Trimmed(TextAt(row, 15)) ==> ExtractFlight(row, roster, num).value.departTime == TextAt(row, 14) + " " + TextAt(row, 15)
  {
    JoinedParts(TextAt(row, 14), TextAt(row, 15));
  }

  // ------------------------------------------------------------ hotels

  /** Python `extract_hotel_record`: Alibaba hotel stays are not extracted. */
  function ExtractHotel(row: Row, roster: Roster.Loaded): (r: Option<HotelRecord>)
    ensures r.None?
  {
    None
  }

  // ------------------------------------------------------------ trains

  /**
   * Python `extract_train_record`. Nothing for a row of 25 columns or fewer or
   * when both the traveller (column 3) and the booker (2) are blank; no other
   * row is refused, whatever its price (24).
   */
  function ExtractTrain(row: Row, roster: Roster.Loaded, num: string -> Option<int>): Option<TrainRecord> {
    if |row| <= 24 then None
    else match NameFrom(row, 3, 2)
      case None => None
      case Some(passenger) =>
        Some(TrainRecord(
          Source, passenger, DeptOf(roster, passenger),
          TextAt(row, 16), TextAt(row, 18), Joined(TextAt(row, 10), TextAt(row, 11)),
          TextAt(row, 14), TextAt(row, 15), AmountAt(row, 24, num), CellAt(row, 1)))
  }

  /** A train row is kept exactly when it is wide enough and names a traveller or a booker, who becomes the employee. */
  lemma TrainKeptExactly(row: Row, roster: Roster.Loaded, num: string -> Option<int>)
    ensures ExtractTrain(row, roster, num).Some? <==> |row| > 24 && (Filled(row, 3) || Filled(row, 2))
    ensures ExtractTrain(row, roster, num).Some? ==>
      var t := ExtractTrain(row, roster, num).value;
      Trimmed(t.employee) && t.price == AmountAt(row, 24, num)
      && (Filled(row, 3) ==> t.employee == Strip(row[3].value))
      && (!Filled(row, 3) ==> t.employee == Strip(row[2].value))
  {
  }

  // ------------------------------------------------------------ rides

  /**
   * The passenger of a ride: the traveller (column 6), else the booker (3);
   * when the text chosen starts with "EMP" (an employee number) the booker
   * replaces it, and a blank booker then means no passenger.
   */
  function CarPassenger(row: Row): (p: Option<string>)
    ensures p.Some? ==> Trimmed(p.value)
    ensures p.Some? ==> (Filled(row, 3) && p.value == Strip(row[3].value)) || (Filled(row, 6) && !StartsWith(row[6].value, "EMP") && p.value == Strip(row[6].value))
    ensures p.None? <==> !Filled(row, 3) && (!Filled(row, 6) || StartsWith(row[6].value, "EMP"))
  {
    if !Filled(row, 6) && !Filled(row, 3) then None
    else
      var raw := if Filled(row, 6) then row[6].value else row[3].value;
      var chosen := if StartsWith(raw, "EMP") then (if Filled(row, 3) then Some(row[3].value) else None) else Some(raw);
      match chosen
      case None => None
      case Some(c) => StripIdempotent(c); Some(Strip(c))
  }

  /** An employee number in the traveller column is never taken for the passenger's name. */
  lemma CarSkipsEmployeeNumber(row: Row)
    requires Filled(row, 6) && StartsWith(row[6].value, "EMP")
    ensures CarPassenger(row) == (if Filled(row, 3) then Some(Strip(row[3].value)) else None)
  {
  }

  /**
   * Python `extract_car_record`. Nothing for a row of 44 columns or fewer or
   * without a passenger; pick-up (14, 15) and drop-off (16, 17) join date and
   * time, the amount is column 32 and the distance 25, the car type is the
   * platform's (43) unless that is empty, then the supplier's (42).
   */
  function ExtractCar(row: Row, roster: Roster.Loaded, num: string -> Option<int>): Option<CarRecord> {
    if |row| <= 43 then None
    else match CarPassenger(row)
      case None => None
      case Some(passenger) =>
        var carType := if TextAt(row, 43) != "" then TextAt(row, 43) else TextAt(row, 42);
        Some(CarRecord(
          Source, passenger, DeptOf(roster, passenger),
          Joined(TextAt(row, 14), TextAt(row, 15)), Joined(TextAt(row, 16), TextAt(row, 17)),
          carType, TextAt(row, 41),
          Place(TextAt(row, 18), None, Some(TextAt(row, 19))),
          Place(TextAt(row, 21), None, Some(TextAt(row, 22))),
          AmountAt(row, 25, num), AmountAt(row, 32, num), CellAt(row, 1)))
  }

  /**
   * A ride row is kept exactly when it is wide enough and has a passenger;
   * the car type is the platform's unless that is empty, the places carry a
   * city and an address but no district.
   */
  lemma CarKeptExactly(row: Row, roster: Roster.Loaded, num: string -> Option<int>)
    ensures ExtractCar(row, roster, num).Some? <==> |row| > 43 && CarPassenger(row).Some?
    ensures ExtractCar(row, roster, num).Some? ==>
      var c := ExtractCar(row, roster, num).value;
      Trimmed(c.passenger) && c.totalAmount == AmountAt(row, 32, num)
      && (TextAt(row, 43) != "" ==> c.carType == TextAt(row, 43))
      && (TextAt(row, 43) == "" ==> c.carType == TextAt(row, 42))
      && c.origin.district.None? && c.destination.district.None?
  {
  }
}
