/**
 * The parameter tuple `insert_data` builds for each cleaned row: the
 * purchase timestamp as a `YYYY-MM-DD HH:MM:SS` string or NULL, the booking
 * status as its label, every other column as it stands.
 */
module Serialisation {

  import opened Wrappers
  import opened Text
  import opened Records

  /**
   * The 22 values bound to one `INSERT INTO luxury_housing_bangalore` row, in
   * column order. `None` stands for the cell missing: NULL for the timestamp
   * and the comment, which are converted explicitly, and NaN for every other
   * column, which is passed on as the cell holds it.
   */
  datatype InsertRow = InsertRow(
    propertyId: Option<string>,
    microMarket: Option<string>,
    projectName: Option<string>,
    developerName: Option<string>,
    unitSizeSqft: real,
    configuration: Option<string>,
    ticketPriceCr: real,
    transactionType: Option<string>,
    buyerType: Option<string>,
    purchaseQuarter: Option<string>,
    connectivityScore: Option<real>,
    amenityScore: Option<real>,
    possessionStatus: Option<string>,
    salesChannel: Option<string>,
    nriBuyer: Option<string>,
    localityInfraScore: Option<real>,
    avgTrafficTimeMin: Option<int>,
    buyerComments: Option<string>,
    pricePerSqft: real,
    quarterNumber: int,
    bhkCount: Option<nat>,
    bookingStatus: string)

  /** `strftime('%Y-%m-%d %H:%M:%S')`. */
  function FormatTimestamp(t: DateTime): (r: string)
    ensures |r| == 19
    ensures r[4] == '-' && r[7] == '-' && r[10] == ' ' && r[13] == ':' && r[16] == ':'
  {
    Pad(t.year, 4) + "-" + Pad(t.month, 2) + "-" + Pad(t.day, 2) + " "
    + Pad(t.hour, 2) + ":" + Pad(t.minute, 2) + ":" + Pad(t.second, 2)
  }

  /** A `YYYY-MM-DD HH:MM:SS` literal read back as a timestamp; calendar validity (February 31st) is not checked. */
  function ParseTimestamp(s: string): Option<DateTime> {
    if |s| == 19 && s[4] == '-' && s[7] == '-' && s[10] == ' ' && s[13] == ':' && s[16] == ':'
       && AllDigits(s[0..4]) && AllDigits(s[5..7]) && AllDigits(s[8..10])
       && AllDigits(s[11..13]) && AllDigits(s[14..16]) && AllDigits(s[17..19])
    then
      var y, mo, d := DigitsValue(s[0..4]), DigitsValue(s[5..7]), DigitsValue(s[8..10]);
      var h, mi, se := DigitsValue(s[11..13]), DigitsValue(s[14..16]), DigitsValue(s[17..19]);
      if 1677 <= y <= 2262 && 1 <= mo <= 12 && 1 <= d <= 31 && h < 24 && mi < 60 && se < 60
      then Some(DateTime(y, mo, d, h, mi, se))
      else None
    else None
  }

  /** The serialised timestamp reads back as the timestamp it came from. */
  lemma TimestampRoundTrip(t: DateTime)
    ensures ParseTimestamp(FormatTimestamp(t)) == Some(t)
  {
    var s := FormatTimestamp(t);
    assert s[0..4] == Pad(t.year, 4);
    assert s[5..7] == Pad(t.month, 2);
    assert s[8..10] == Pad(t.day, 2);
    assert s[11..13] == Pad(t.hour, 2);
    assert s[14..16] == Pad(t.minute, 2);
    assert s[17..19] == Pad(t.second, 2);
    PadValue(t.year, 4);
    PadValue(t.month, 2);
    PadValue(t.day, 2);
    PadValue(t.hour, 2);
    PadValue(t.minute, 2);
    PadValue(t.second, 2);
  }

  function BookingText(b: BookingStatus): string {
    match b
    case Booked => "Booked"
    case NotBooked => "Not Booked"
  }

  /** Both labels fit the `Booking_Status VARCHAR(10)` column, and they differ. */
  lemma BookingTextFits()
    ensures |BookingText(Booked)| <= 10 && |BookingText(NotBooked)| <= 10
    ensures BookingText(Booked) != BookingText(NotBooked)
  {
    assert BookingText(Booked)[0] != BookingText(NotBooked)[0];
  }

  /** The row tuple for one cleaned record. */
  function Serialise(c: CleanRecord): (v: InsertRow)
    ensures v.propertyId == c.propertyId
    ensures v.purchaseQuarter.None? <==> c.purchaseQuarter.None?
    ensures v.buyerComments == Some(c.buyerComments)
    ensures c.purchaseQuarter.Some? ==> v.purchaseQuarter == Some(FormatTimestamp(c.purchaseQuarter.value))
    ensures v.bookingStatus == BookingText(c.bookingStatus)
    ensures v.microMarket == c.microMarket && v.projectName == c.projectName && v.developerName == c.developerName
    ensures v.unitSizeSqft == c.unitSizeSqft && v.configuration == c.configuration && v.ticketPriceCr == c.ticketPriceCr
    ensures v.transactionType == c.transactionType && v.buyerType == c.buyerType
    ensures v.connectivityScore == c.connectivityScore && v.amenityScore == c.amenityScore
    ensures v.possessionStatus == c.possessionStatus && v.salesChannel == c.salesChannel && v.nriBuyer == c.nriBuyer
    ensures v.localityInfraScore == c.localityInfraScore && v.avgTrafficTimeMin == c.avgTrafficTimeMin
    ensures v.pricePerSqft == c.pricePerSqft && v.quarterNumber == c.quarterNumber && v.bhkCount == c.bhkCount
  {
    InsertRow(
      propertyId := c.propertyId,
      microMarket := c.microMarket,
      projectName := c.projectName,
      developerName := c.developerName,
      unitSizeSqft := c.unitSizeSqft,
      configuration := c.configuration,
      ticketPriceCr := c.ticketPriceCr,
      transactionType := c.transactionType,
      buyerType := c.buyerType,
      purchaseQuarter := match c.purchaseQuarter case None => None case Some(t) => Some(FormatTimestamp(t)),
      connectivityScore := c.connectivityScore,
      amenityScore := c.amenityScore,
      possessionStatus := c.possessionStatus,
      salesChannel := c.salesChannel,
      nriBuyer := c.nriBuyer,
      localityInfraScore := c.localityInfraScore,
      avgTrafficTimeMin := c.avgTrafficTimeMin,
      buyerComments := Some(c.buyerComments),
      pricePerSqft := c.pricePerSqft,
      quarterNumber := c.quarterNumber,
      bhkCount := c.bhkCount,
      bookingStatus := BookingText(c.bookingStatus))
  }

  /** What the stored row reads back as: the same timestamp, the same booking status, the same comment. */
  lemma SerialiseReadsBack(c: CleanRecord)
    ensures c.purchaseQuarter.Some? ==> ParseTimestamp(Serialise(c).purchaseQuarter.value) == c.purchaseQuarter
    ensures (Serialise(c).bookingStatus == "Booked") <==> c.bookingStatus == Booked
    ensures Serialise(c).buyerComments == Some(c.buyerComments)
  {
    if c.purchaseQuarter.Some? {
      TimestampRoundTrip(c.purchaseQuarter.value);
    }
    BookingTextFits();
  }
}
