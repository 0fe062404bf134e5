/**
 * The records the vendor extractors write, one datatype per record type, with
 * the keys they set. `orderNo` is the one optional key. The bridge to
 * merging (`AsTravel`) keeps the keys `merge_data.py` reads.
 */
module Records {
  import opened Wrappers
  import opened Rows
  import MergeData

  datatype FlightRecord = FlightRecord(
    source: string, passenger: string, dept: Dept, bookTime: string, flightNo: string,
    departTime: string, fromCity: string, toCity: string, price: int,
    cabinClass: string, airline: string, orderNo: Option<string>)

  datatype HotelRecord = HotelRecord(
    source: string, employee: string, dept: Dept, checkInTime: string, checkOutTime: string,
    city: string, district: string, hotelName: string, roomType: string, price: int,
    isShared: bool, personalOverage: int, miscFee: int, orderNo: Option<string>)

  datatype TrainRecord = TrainRecord(
    source: string, employee: string, dept: Dept, trainNo: string, seat: string,
    departTime: string, fromCity: string, toCity: string, price: int, orderNo: Option<string>)

  /** A pick-up or drop-off place; `district` and `address` are keys a record may lack. */
  datatype Place = Place(city: string, district: Option<string>, address: Option<string>)

  /**
   * A car ride. `distance` is read with the same parse as the amounts, so it
   * is held in hundredths of a kilometre, as `totalAmount` is held in cents.
   */
  datatype CarRecord = CarRecord(
    source: string, passenger: string, dept: Dept, pickupTime: string, dropoffTime: string,
    carType: string, provider: string, origin: Place, destination: Place,
    distance: int, totalAmount: int, orderNo: Option<string>)

  /** Any record an extractor writes. */
  datatype Extracted = Flight(flight: FlightRecord) | Hotel(hotel: HotelRecord) | Train(train: TrainRecord) | Car(car: CarRecord)

  /** The amount a record carries: its `price`, or a car ride's `totalAmount`. */
  function AmountOf(e: Extracted): int {
    match e
    case Flight(f) => f.price
    case Hotel(h) => h.price
    case Train(t) => t.price
    case Car(c) => c.totalAmount
  }

  /** The person a record is about: the passenger of a flight or ride, the employee of a stay or train trip. */
  function PersonOf(e: Extracted): string {
    match e
    case Flight(f) => f.passenger
    case Hotel(h) => h.employee
    case Train(t) => t.employee
    case Car(c) => c.passenger
  }

  function DeptOfRecord(e: Extracted): Dept {
    match e
    case Flight(f) => f.dept
    case Hotel(h) => h.dept
    case Train(t) => t.dept
    case Car(c) => c.dept
  }

  function SourceOf(e: Extracted): string {
    match e
    case Flight(f) => f.source
    case Hotel(h) => h.source
    case Train(t) => t.source
    case Car(c) => c.source
  }

  /** The record as merging sees it, with the keys the extractor wrote and the rest missing. */
  function AsTravel(e: Extracted): MergeData.TravelRecord {
    match e
    case Flight(f) =>
      MergeData.TravelRecord(Some(MergeData.Flight), Some(f.source), Some(f.dept.level1), Some(f.passenger), None,
        Some(f.price), None, Some(f.departTime), None, None)
    case Hotel(h) =>
      MergeData.TravelRecord(Some(MergeData.Hotel), Some(h.source), Some(h.dept.level1), None, Some(h.employee),
        Some(h.price), None, None, Some(h.checkInTime), None)
    case Train(t) =>
      MergeData.TravelRecord(Some(MergeData.Train), Some(t.source), Some(t.dept.level1), None, Some(t.employee),
        Some(t.price), None, Some(t.departTime), None, None)
    case Car(c) =>
      MergeData.TravelRecord(Some(MergeData.Car), Some(c.source), Some(c.dept.level1), Some(c.passenger), None,
        None, Some(c.totalAmount), None, None, Some(c.pickupTime))
  }

  /**
   * Merging reads back what the extractor wrote: the amount, the person and
   * the source; and since every extractor writes `deptLevel1`, a person the
   * roster does not list is grouped under the empty department rather than the
   * unknown one.
   */
  lemma MergeReadsRecord(e: Extracted)
    ensures MergeData.ParseAmount(AsTravel(e)) == AmountOf(e)
    ensures MergeData.EmployeeName(AsTravel(e)) == PersonOf(e)
    ensures MergeData.KeyOf(MergeData.BySource, AsTravel(e)) == SourceOf(e)
    ensures MergeData.KeyOf(MergeData.ByDept, AsTravel(e)) == DeptOfRecord(e).level1
    ensures PersonOf(e) != "" ==> MergeData.KeyOf(MergeData.ByEmployee, AsTravel(e)) == PersonOf(e)
  {
  }
}
