/**
 * The rows the pipeline moves: a raw CSV row as `pd.read_csv` leaves it
 * (every cell possibly missing), the parsed purchase timestamp, and the
 * cleaned transaction record that is loaded into `luxury_housing_bangalore`.
 */
module Records {

  import opened Wrappers

  /** pandas timestamps with nanosecond resolution span the years 1677 to 2262. */
  type Year = y: int | 1677 <= y <= 2262 witness 1970
  type Month = m: int | 1 <= m <= 12 witness 1
  type Day = d: int | 1 <= d <= 31 witness 1
  type Hour = h: int | 0 <= h < 24
  type Minute = m: int | 0 <= m < 60
  type Second = s: int | 0 <= s < 60

  /** A parsed `Purchase_Quarter`, to the second. */
  datatype DateTime = DateTime(year: Year, month: Month, day: Day, hour: Hour, minute: Minute, second: Second)

  /** One row of the input file; `None` is a missing cell (NaN). */
  datatype RawRecord = RawRecord(
    propertyId: Option<string>,
    microMarket: Option<string>,
    projectName: Option<string>,
    developerName: Option<string>,
    unitSizeSqft: Option<real>,
    configuration: Option<string>,
    ticketPriceCr: Option<string>,
    transactionType: Option<string>,
    buyerType: Option<string>,
    purchaseQuarter: Option<string>,
    connectivityScore: Option<real>,
    amenityScore: Option<real>,
    possessionStatus: Option<string>,
    salesChannel: Option<string>,
    nriBuyer: Option<string>,
    localityInfraScore: Option<real>,
    avgTrafficTimeMin: Option<int>,
    buyerComments: Option<string>)

  datatype BookingStatus = Booked | NotBooked

  /** A row after `clean_data`, with its four derived columns. */
  datatype CleanRecord = CleanRecord(
    propertyId: Option<string>,
    microMarket: Option<string>,
    projectName: Option<string>,
    developerName: Option<string>,
    unitSizeSqft: real,
    configuration: Option<string>,
    ticketPriceCr: real,
    transactionType: Option<string>,
    buyerType: Option<string>,
    purchaseQuarter: Option<DateTime>,
    connectivityScore: Option<real>,
    amenityScore: Option<real>,
    possessionStatus: Option<string>,
    salesChannel: Option<string>,
    nriBuyer: Option<string>,
    localityInfraScore: Option<real>,
    avgTrafficTimeMin: Option<int>,
    buyerComments: string,
    pricePerSqft: real,
    quarterNumber: nat,
    bhkCount: Option<nat>,
    bookingStatus: BookingStatus)
}
