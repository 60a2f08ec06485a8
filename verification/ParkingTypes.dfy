/** The data model of the parking system: the enumerations, the records
    the engine keeps (vehicles, payments, spaces), the configuration and
    its default value. */
module ParkingTypes {
  import opened JsLib

  datatype VehicleType = Car | Motorcycle | Truck

  datatype SpaceStatus = Free | Occupied | Blocked | Reserved

  datatype PaymentMethod = Cash | Card

  datatype PaymentStatus = Paid | Pending

  datatype VehicleStatus = Parked | Exited

  /** A vehicle record, with the fields the engine assigns. Times are
      milliseconds since the epoch. */
  datatype Vehicle = Vehicle(
    id: string,
    plate: string,
    vtype: VehicleType,
    entryTime: int,
    exitTime: Option<int>,
    spaceId: string,
    status: VehicleStatus,
    ticketCode: string)

  /** A payment record, with the fields the engine assigns; `duration` is
      in minutes and `date` in milliseconds since the epoch. */
  datatype Payment = Payment(
    id: string,
    vehicleId: string,
    plate: string,
    amount: int,
    payMethod: PaymentMethod,
    status: PaymentStatus,
    date: int,
    vehicleType: VehicleType,
    duration: int)

  datatype ParkingSpace = ParkingSpace(
    id: string,
    labelText: string,
    vtype: VehicleType,
    status: SpaceStatus,
    vehicleId: Option<string>)

  /** The rates of one vehicle type: one per rate type ("hour", "day",
      "night" and "24h", here `allDay`), plus the monthly rate. */
  datatype RateTable = RateTable(hour: int, day: int, night: int, allDay: int, monthly: int)

  /** A rate table for every vehicle type. */
  datatype RatesConfig = RatesConfig(car: RateTable, motorcycle: RateTable, truck: RateTable)
  {
    function For(t: VehicleType): RateTable
    {
      match t
      case Car => car
      case Motorcycle => motorcycle
      case Truck => truck
    }
  }

  /** How many spaces of each vehicle type the pool holds. */
  datatype SpaceCounts = SpaceCounts(car: int, motorcycle: int, truck: int)
  {
    function For(t: VehicleType): int
    {
      match t
      case Car => car
      case Motorcycle => motorcycle
      case Truck => truck
    }
  }

  datatype ReceiptConfig = ReceiptConfig(
    headerText: string,
    footerText: string,
    logoUrl: string,
    widthMm: int)

  datatype ParkingConfig = ParkingConfig(
    rates: RatesConfig,
    totalSpaces: SpaceCounts,
    currency: string,
    name: string,
    gracePeriod: int,
    receiptEntry: ReceiptConfig,
    receiptExit: ReceiptConfig,
    receiptMonthly: ReceiptConfig)

  const DEFAULT_RECEIPT: ReceiptConfig :=
    ReceiptConfig("ParkSystem Pro", "Gracias por su visita", "", 80)

  const DEFAULT_CONFIG: ParkingConfig := ParkingConfig(
    RatesConfig(
      RateTable(5000, 25000, 15000, 35000, 250000),
      RateTable(3000, 15000, 10000, 20000, 150000),
      RateTable(8000, 40000, 25000, 50000, 400000)),
    SpaceCounts(20, 10, 5),
    "COP",
    "ParkSystem Pro",
    5,
    DEFAULT_RECEIPT,
    DEFAULT_RECEIPT,
    DEFAULT_RECEIPT)

  /** In the default configuration every rate is positive and, for each
      vehicle type, hour < night < day < 24h < monthly. */
  lemma DefaultRatesOrdered()
    ensures forall t: VehicleType ::
      var r := DEFAULT_CONFIG.rates.For(t);
      0 < r.hour < r.night < r.day < r.allDay < r.monthly
  {
    forall t: VehicleType
      ensures var r := DEFAULT_CONFIG.rates.For(t);
        0 < r.hour < r.night < r.day < r.allDay < r.monthly
    {
      match t
      case Car =>
      case Motorcycle =>
      case Truck =>
    }
  }

  /** The default pool sizes, grace period and currency. */
  lemma DefaultSettings()
    ensures DEFAULT_CONFIG.totalSpaces.For(Car) == 20
    ensures DEFAULT_CONFIG.totalSpaces.For(Motorcycle) == 10
    ensures DEFAULT_CONFIG.totalSpaces.For(Truck) == 5
    ensures DEFAULT_CONFIG.gracePeriod == 5
    ensures DEFAULT_CONFIG.currency == "COP"
  {
  }
}
