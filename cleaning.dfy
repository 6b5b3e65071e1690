/**
 * `clean_data`: drop duplicate rows, then clean every remaining row and
 * derive its booking status, price per square foot, quarter number and
 * BHK count. Reading the file and parsing timestamps are the caller's.
 */
module Cleaning {

  import opened Wrappers
  import opened Text
  import opened Decimal
  import opened Duplicates
  import opened Records

  /** One crore is ten million rupees. */
  const RupeesPerCrore: real := 10000000.0

  /** The calls into pandas whose rules are not modelled: `pd.to_datetime` on one cell and `str.title()`. */
  datatype Foreign = Foreign(toDatetime: string -> Option<DateTime>, title: string -> string)

  // ---------------------------------------------------------------- price

  /**
   * The character class `[₹Cr\s]` deleted from prices, wherever the
   * characters stand, with `₹` the rupee sign U+20B9.
   */
  predicate InPriceClass(c: char) {
    c == '\U{20B9}' || c == 'C' || c == 'r' || IsSpace(c)
  }

  /** `str.replace(r'[₹Cr\s]', '', regex=True)`. */
  function StripPrice(s: string): (r: string)
    ensures |r| <= |s|
    ensures forall i :: 0 <= i < |r| ==> !InPriceClass(r[i])
  {
    if s == [] then [] else (if InPriceClass(s[0]) then [] else [s[0]]) + StripPrice(s[1..])
  }

  /** Deleting the class works piece by piece. */
  lemma {:induction false} StripPriceAppend(a: string, b: string)
    ensures StripPrice(a + b) == StripPrice(a) + StripPrice(b)
  {
    if a == [] {
      assert a + b == b;
    } else {
      assert (a + b)[1..] == a[1..] + b;
      StripPriceAppend(a[1..], b);
    }
  }

  /** A string free of the class is left as it is. */
  lemma {:induction false} StripPriceKeeps(s: string)
    requires forall i :: 0 <= i < |s| ==> !InPriceClass(s[i])
    ensures StripPrice(s) == s
  {
    if s != [] {
      StripPriceKeeps(s[1..]);
    }
  }

  /** Every character of the class is deleted. */
  lemma StripPriceDrops(c: char)
    requires InPriceClass(c)
    ensures StripPrice([c]) == []
  {
    assert [c][1..] == [];
  }

  /** `astype(str)`: a missing price becomes the text "nan". */
  function PriceText(raw: Option<string>): string {
    raw.GetOr("nan")
  }

  /**
   * The cleaned `Ticket_Price_Cr`: strip the class, strip whitespace, read
   * "nan" as missing, parse, and fill a missing or unreadable value with 0.
   * The price is the number the stripped text reads as, and 0 when it reads
   * as none: the whitespace strip and the "nan" test change nothing. The
   * sign is kept, so a negative price stays negative.
   */
  function CleanPrice(raw: Option<string>): (p: real)
    ensures p == ParseDecimal(StripPrice(PriceText(raw))).GetOr(0.0)
  {
    var s := StripPrice(PriceText(raw));
    TrimNoPad(s);
    ParseNonNumbers();
    var t := Trim(s);
    if t == "nan" then 0.0 else ParseDecimal(t).GetOr(0.0)
  }

  /** "₹1.5 Cr" is 1.5 crore: the rupee sign, the space and the "Cr" are deleted. */
  lemma CleanPriceRupees()
    ensures CleanPrice(Some("\U{20B9}1.5 Cr")) == 1.5
  {
    StripPriceKeeps("1.5");
    assert StripPrice(" Cr") == "";
    assert "1.5" + " Cr" == "1.5 Cr";
    StripPriceAppend("1.5", " Cr");
    assert StripPrice("\U{20B9}1.5 Cr") == "1.5";
    ParseOnePointFive();
  }

  /** An empty or missing price is 0. */
  lemma CleanPriceMissing()
    ensures CleanPrice(Some("")) == 0.0
    ensures CleanPrice(None) == 0.0
  {
    StripPriceKeeps("nan");
    ParseNonNumbers();
  }

  /** A negative price is kept as it is, not clamped. */
  lemma CleanPriceNegative()
    ensures CleanPrice(Some("-1.5")) == -1.5
  {
    StripPriceKeeps("-1.5");
    ParseMinusOnePointFive();
  }

  lemma StripCroreTail()
    ensures StripPrice(" Crore") == "oe"
  {
  }

  lemma StripCroreHead()
    ensures StripPrice("1.5") == "1.5"
  {
    StripPriceKeeps("1.5");
  }

  lemma StripCrore()
    ensures StripPrice("1.5 Crore") == "1.5oe"
  {
    StripCroreHead();
    StripCroreTail();
    StripPriceAppend("1.5", " Crore");
    assert "1.5" + " Crore" == "1.5 Crore";
    assert "1.5" + "oe" == "1.5oe";
  }

  /** The class deletes "C" and "r" anywhere: "1.5 Crore" leaves "1.5oe", which is no number, so 0. */
  lemma CleanPriceCrore()
    ensures CleanPrice(Some("1.5 Crore")) == 0.0
  {
    StripCrore();
    ParseTrailingJunk();
  }

  // ------------------------------------------------------ derived columns

  /** `Unit_Size_Sqft`: negative sizes become 0, then missing sizes become 0. */
  function ClampSize(x: Option<real>): (r: real)
    ensures r >= 0.0
    ensures x.Some? && x.value >= 0.0 ==> r == x.value
    ensures x.None? || x.value < 0.0 ==> r == 0.0
  {
    match x
    case None => 0.0
    case Some(v) => if v < 0.0 then 0.0 else v
  }

  /** `Booking_Status`: Booked exactly when the price is positive. */
  function BookingOf(price: real): (b: BookingStatus)
    ensures b == Booked <==> price > 0.0
  {
    if price > 0.0 then Booked else NotBooked
  }

  /** `Price_per_Sqft`, in rupees: the price in crore over the size, 0 unless the size is positive. */
  function PricePerSqft(price: real, size: real): (r: real)
    ensures size > 0.0 ==> r * size == price * RupeesPerCrore
    ensures size <= 0.0 ==> r == 0.0
  {
    if size > 0.0 then price * RupeesPerCrore / size else 0.0
  }

  /** `rate` is the rupee price per square foot of a unit of `size` costing `price` crore, or 0 when there is no size. */
  ghost predicate IsRate(rate: real, price: real, size: real) {
    && (size > 0.0 ==> rate * size == price * RupeesPerCrore)
    && (size <= 0.0 ==> rate == 0.0)
  }

  /** `PricePerSqft`'s contract as an `IsRate` fact, for arguments that are themselves function results. */
  lemma PricePerSqftIsRate(price: real, size: real)
    ensures IsRate(PricePerSqft(price, size), price, size)
  {
  }

  /** The calendar quarter of a month: the `q` with month in 3q-2 .. 3q. */
  function QuarterOf(m: Month): (q: int)
    ensures 1 <= q <= 4 && 3 * q - 2 <= m <= 3 * q
  {
    (m - 1) / 3 + 1
  }

  /** `Quarter_Number`: the timestamp's quarter, or 0 when there is no timestamp. */
  function QuarterNumber(t: Option<DateTime>): (q: nat)
    ensures q <= 4
    ensures q == 0 <==> t.None?
    ensures t.Some? ==> 3 * q - 2 <= t.value.month <= 3 * q
  {
    match t
    case None => 0
    case Some(d) => QuarterOf(d.month)
  }

  predicate NotLower(c: char) {
    !IsLower(c)
  }

  predicate HasDigit(s: string) {
    exists k :: 0 <= k < |s| && IsDigit(s[k])
  }

  /**
   * `str.upper().str.strip()` on the configuration code: the upper-cased
   * input without its leading and trailing whitespace. It is empty exactly
   * when the input is all whitespace, it has no lower-case letter, and it
   * has a digit exactly when the input has one.
   */
  function NormaliseConfiguration(s: string): (r: string)
    ensures NormalisedFrom(r, s)
  {
    NormaliseFacts(s);
    Trim(Upper(s))
  }

  /**
   * `r` is `s` upper-cased with the whitespace cut from both ends: it lies
   * in the upper-cased text right after the leading whitespace and is
   * followed only by whitespace, it is empty exactly when `s` is all
   * whitespace, it has no lower-case letter, it neither starts nor ends
   * with whitespace, and it has a digit exactly when `s` has one.
   */
  ghost predicate NormalisedFrom(r: string, s: string) {
    && |r| <= |s|
    && (r == [] <==> AllSpace(s))
    && (var a := Span(s, IsSpace);
        a + |r| <= |s| && r == Upper(s)[a..a + |r|] && AllSpace(s[..a]) && AllSpace(s[a + |r|..]))
    && (forall i :: 0 <= i < |r| ==> !IsLower(r[i]))
    && (r != [] ==> !IsSpace(r[0]) && !IsSpace(r[|r| - 1]))
    && (HasDigit(r) <==> HasDigit(s))
  }

  lemma NormaliseFacts(s: string)
    ensures NormalisedFrom(Trim(Upper(s)), s)
  {
    NormaliseNoLower(s);
    NormaliseEmpty(s);
    NormaliseInfix(s);
    NormaliseDigits(s);
  }

  lemma NormaliseNoLower(s: string)
    ensures forall i :: 0 <= i < |Trim(Upper(s))| ==> !IsLower(Trim(Upper(s))[i])
  {
    var u := Upper(s);
    assert forall k :: 0 <= k < |u| ==> NotLower(u[k]);
    TrimKeeps(u, NotLower);
  }

  lemma NormaliseEmpty(s: string)
    ensures Trim(Upper(s)) == [] <==> AllSpace(s)
  {
    UpperSpaces(s, 0, |s|);
    assert Upper(s)[0..|s|] == Upper(s) && s[0..|s|] == s;
  }

  /** The trim of the upper-cased text starts where the text's leading whitespace ends and is followed only by whitespace. */
  lemma NormaliseInfix(s: string)
    ensures var r := Trim(Upper(s)); var a := Span(s, IsSpace);
      a + |r| <= |s| && r == Upper(s)[a..a + |r|] && AllSpace(s[..a]) && AllSpace(s[a + |r|..])
  {
    var u := Upper(s);
    UpperProperties(s);
    SpanAgree(s, u, IsSpace);
    TrimAt(u);
    var r := Trim(u);
    var a := Span(s, IsSpace);
    forall k | 0 <= k < a
      ensures IsSpace(s[..a][k])
    {
    }
    SuffixSpaces(s, u, a + |r|);
  }

  /** A suffix that is whitespace in `u` is whitespace in `s`, when the two agree on whitespace. */
  lemma SuffixSpaces(s: string, u: string, j: nat)
    requires |u| == |s| && j <= |s|
    requires forall k :: 0 <= k < |s| ==> (IsSpace(u[k]) <==> IsSpace(s[k]))
    requires AllSpace(u[j..])
    ensures AllSpace(s[j..])
  {
    forall k | 0 <= k < |s| - j
      ensures IsSpace(s[j..][k])
    {
      assert u[j..][k] == u[j + k];
    }
  }

  /** The configuration has a digit after normalising exactly when it had one before. */
  lemma NormaliseDigits(s: string)
    ensures HasDigit(Trim(Upper(s))) <==> HasDigit(s)
  {
    var u := Upper(s);
    UpperProperties(s);
    TrimAt(u);
    InfixDigits(s, u, Trim(u), Span(u, IsSpace));
  }

  /** Upper-casing keeps a slice all whitespace, or not. */
  lemma UpperSpaces(s: string, a: nat, b: nat)
    requires a <= b <= |s|
    ensures AllSpace(Upper(s)[a..b]) <==> AllSpace(s[a..b])
  {
    var u := Upper(s);
    UpperProperties(s);
    assert forall k :: 0 <= k < b - a ==> u[a..b][k] == u[a + k] && s[a..b][k] == s[a + k];
  }

  /**
   * An infix of `u` between whitespace pads has a digit exactly when `s`
   * does, when `u` has its digits where `s` has them.
   */
  lemma InfixDigits(s: string, u: string, r: string, i: nat)
    requires |u| == |s| && forall k :: 0 <= k < |s| ==> (IsDigit(u[k]) <==> IsDigit(s[k]))
    requires i + |r| <= |u| && r == u[i..i + |r|]
    requires forall k :: 0 <= k < i ==> IsSpace(u[k])
    requires AllSpace(u[i + |r|..])
    ensures HasDigit(r) <==> HasDigit(s)
  {
    forall k | i + |r| <= k < |u|
      ensures !IsDigit(u[k])
    {
      assert u[i + |r|..][k - i - |r|] == u[k];
    }
    if HasDigit(s) {
      var k :| 0 <= k < |s| && IsDigit(s[k]);
      assert IsDigit(u[k]);
      assert r[k - i] == u[k];
    }
    if HasDigit(r) {
      var k :| 0 <= k < |r| && IsDigit(r[k]);
      assert r[k] == u[i + k];
      assert IsDigit(s[i + k]);
    }
  }

  /**
   * `BHK_Count`: the number written by the first run of digits in the
   * configuration; none when the configuration is missing or has no digit.
   */
  function BhkCount(config: Option<string>): (r: Option<nat>)
    ensures r.None? <==> config.None? || forall i :: 0 <= i < |config.value| ==> !IsDigit(config.value[i])
    ensures r.Some? ==> (config.Some? &&
      exists b: nat, e: nat :: IsFirstDigitRun(config.value, b, e) && r.value == DigitsValue(config.value[b..e]))
  {
    match config
    case None => None
    case Some(s) =>
      match FirstDigitRun(s)
      case None => None
      case Some((b, e)) => Some(DigitsValue(s[b..e]))
  }

  /** Whichever run of digits comes first in the configuration gives the count. */
  lemma BhkCountOfRun(s: string, b: nat, e: nat)
    requires IsFirstDigitRun(s, b, e)
    ensures BhkCount(Some(s)) == Some(DigitsValue(s[b..e]))
  {
    assert s[b..e][0] == s[b];
    var (b', e') := FirstDigitRun(s).value;
    FirstDigitRunUnique(s, b, e, b', e');
  }

  lemma UpperExample()
    ensures Upper("3bhk ") == "3BHK" + " "
  {
  }

  /** "3bhk " becomes "3BHK". */
  lemma NormaliseExample()
    ensures NormaliseConfiguration("3bhk ") == "3BHK"
  {
    UpperExample();
    TrimTrailing("3BHK", " ");
  }

  /** "3BHK" is a 3-BHK unit. */
  lemma BhkExample()
    ensures BhkCount(Some("3BHK")) == Some(3)
  {
    assert Span("3BHK", NotDigit) == 0;
    assert Span("3BHK", IsDigit) == 1;
    assert "3BHK"[0..1] == "3";
  }

  /** A configuration without digits has no BHK count. */
  lemma BhkStudio()
    ensures BhkCount(Some("STUDIO")) == None
  {
    assert !IsDigit("STUDIO"[0]) && !IsDigit("STUDIO"[1]) && !IsDigit("STUDIO"[2]);
    assert !IsDigit("STUDIO"[3]) && !IsDigit("STUDIO"[4]) && !IsDigit("STUDIO"[5]);
  }

  // ----------------------------------------------------- amenity imputation

  /** Sum of the present entries of a column. */
  function PresentSum(xs: seq<Option<real>>): real {
    if xs == [] then 0.0 else xs[0].GetOr(0.0) + PresentSum(xs[1..])
  }

  /** Number of present entries of a column. */
  function PresentCount(xs: seq<Option<real>>): (n: nat)
    ensures n <= |xs|
  {
    if xs == [] then 0 else (if xs[0].Some? then 1 else 0) + PresentCount(xs[1..])
  }

  /** `Series.mean()`: the mean of the present entries; missing (NaN) when there are none. */
  function Mean(xs: seq<Option<real>>): (m: Option<real>)
    ensures m.None? <==> PresentCount(xs) == 0
    ensures m.Some? ==> m.value * PresentCount(xs) as real == PresentSum(xs)
  {
    var n := PresentCount(xs);
    if n == 0 then None else Some(PresentSum(xs) / n as real)
  }

  /** `fillna` on one cell: a missing cell takes `v` (which may itself be missing). */
  function FillCell(x: Option<real>, v: Option<real>): Option<real> {
    if x.Some? then x else v
  }

  /** `fillna(v)` on a column. */
  function Fill(xs: seq<Option<real>>, v: Option<real>): (r: seq<Option<real>>)
    ensures |r| == |xs|
  {
    seq(|xs|, i requires 0 <= i < |xs| => FillCell(xs[i], v))
  }

  /**
   * `Amenity_Score`, imputed by the mean: present entries are unchanged,
   * missing ones all take the mean of the entries present before filling,
   * and nothing is missing afterwards unless everything was.
   */
  function ImputeMean(xs: seq<Option<real>>): (ys: seq<Option<real>>)
    ensures |ys| == |xs|
    ensures forall i :: 0 <= i < |xs| && xs[i].Some? ==> ys[i] == xs[i]
    ensures forall i :: 0 <= i < |xs| && xs[i].None? ==> ys[i] == Mean(xs)
    ensures PresentCount(xs) > 0 ==> forall i :: 0 <= i < |xs| ==> ys[i].Some?
  {
    Fill(xs, Mean(xs))
  }

  lemma {:induction false} FillTotals(xs: seq<Option<real>>, v: real)
    ensures PresentCount(Fill(xs, Some(v))) == |xs|
    ensures PresentSum(Fill(xs, Some(v))) == PresentSum(xs) + (|xs| - PresentCount(xs)) as real * v
  {
    if xs != [] {
      assert Fill(xs, Some(v))[1..] == Fill(xs[1..], Some(v));
      FillTotals(xs[1..], v);
    }
  }

  lemma {:induction false} NoneCountZero(xs: seq<Option<real>>)
    requires PresentCount(xs) == 0
    ensures forall i :: 0 <= i < |xs| ==> xs[i].None?
  {
    if xs != [] {
      NoneCountZero(xs[1..]);
      assert forall i :: 1 <= i < |xs| ==> xs[i] == xs[1..][i - 1];
    }
  }

  /** Adding `n - c` copies of the mean of `c` values totalling `s` keeps the mean. */
  lemma MeanOfPadded(s: real, c: real, n: real, t: real)
    requires 0.0 < c <= n
    requires t == s + (n - c) * (s / c)
    ensures t / n == s / c
  {
    var m := s / c;
    assert s == m * c;
    assert t == m * n;
  }

  /** The mean is taken once, before filling, and filling with it leaves the column mean unchanged. */
  lemma {:induction false} ImputeMeanKeepsMean(xs: seq<Option<real>>)
    ensures Mean(ImputeMean(xs)) == Mean(xs)
  {
    var c := PresentCount(xs);
    if c == 0 {
      NoneCountZero(xs);
      assert ImputeMean(xs) == xs;
    } else {
      var s := PresentSum(xs);
      var m := s / c as real;
      assert Mean(xs) == Some(m);
      var ys := ImputeMean(xs);
      assert ys == Fill(xs, Some(m));
      FillTotals(xs, m);
      assert PresentCount(ys) == |xs| > 0;
      assert (|xs| - c) as real == |xs| as real - c as real;
      MeanOfPadded(s, c as real, |xs| as real, PresentSum(ys));
      assert Mean(ys) == Some(PresentSum(ys) / |xs| as real);
    }
  }

  // ------------------------------------------------------------ one row

  /** Every cleaned row satisfies these. */
  ghost predicate Cleaned(c: CleanRecord) {
    && c.unitSizeSqft >= 0.0
    && (c.bookingStatus == Booked <==> c.ticketPriceCr > 0.0)
    && IsRate(c.pricePerSqft, c.ticketPriceCr, c.unitSizeSqft)
    && c.quarterNumber <= 4
    && (c.quarterNumber == 0 <==> c.purchaseQuarter.None?)
    && (c.purchaseQuarter.Some? ==> 3 * c.quarterNumber - 2 <= c.purchaseQuarter.value.month <= 3 * c.quarterNumber)
    && (c.bhkCount.None? <==> c.configuration.None? || forall i :: 0 <= i < |c.configuration.value| ==> !IsDigit(c.configuration.value[i]))
    && (c.bhkCount.Some? ==> (c.configuration.Some? &&
         exists b: nat, e: nat :: IsFirstDigitRun(c.configuration.value, b, e) && c.bhkCount.value == DigitsValue(c.configuration.value[b..e])))
  }

  function MapText(x: Option<string>, g: string -> string): Option<string> {
    match x
    case None => None
    case Some(s) => Some(g(s))
  }

  function TitleTrim(f: Foreign): string -> string {
    s => Trim(f.title(s))
  }

  /** The parsed purchase timestamp: a missing cell is NaT, otherwise whatever the parser makes of it. */
  function ParseQuarter(x: Option<string>, f: Foreign): Option<DateTime> {
    match x
    case None => None
    case Some(s) => f.toDatetime(s)
  }

  /**
   * One row of `clean_data`, given the amenity fill value computed over the
   * whole column. The row satisfies `Cleaned`, keeps every column that is not
   * cleaned, and takes its price, size, comment and amenity score from the
   * cleaning rules.
   */
  function CleanRow(r: RawRecord, amenityFill: Option<real>, f: Foreign): (c: CleanRecord)
    ensures Cleaned(c)
    ensures c.ticketPriceCr == CleanPrice(r.ticketPriceCr)
    ensures c.unitSizeSqft == ClampSize(r.unitSizeSqft)
    ensures c.buyerComments == r.buyerComments.GetOr("")
    ensures c.configuration == MapText(r.configuration, NormaliseConfiguration)
    ensures c.purchaseQuarter == ParseQuarter(r.purchaseQuarter, f)
    ensures c.microMarket == MapText(r.microMarket, TitleTrim(f)) && c.buyerType == MapText(r.buyerType, TitleTrim(f))
    ensures c.amenityScore == FillCell(r.amenityScore, amenityFill)
    ensures c.propertyId == r.propertyId && c.projectName == r.projectName && c.developerName == r.developerName
    ensures c.connectivityScore == r.connectivityScore && c.localityInfraScore == r.localityInfraScore
    ensures c.avgTrafficTimeMin == r.avgTrafficTimeMin && c.transactionType == r.transactionType
    ensures c.possessionStatus == r.possessionStatus && c.salesChannel == r.salesChannel && c.nriBuyer == r.nriBuyer
  {
    var price := CleanPrice(r.ticketPriceCr);
    var size := ClampSize(r.unitSizeSqft);
    var config := MapText(r.configuration, NormaliseConfiguration);
    var when := ParseQuarter(r.purchaseQuarter, f);
    PricePerSqftIsRate(price, size);
    CleanRecord(
      propertyId := r.propertyId,
      microMarket := MapText(r.microMarket, TitleTrim(f)),
      projectName := r.projectName,
      developerName := r.developerName,
      unitSizeSqft := size,
      configuration := config,
      ticketPriceCr := price,
      transactionType := r.transactionType,
      buyerType := MapText(r.buyerType, TitleTrim(f)),
      purchaseQuarter := when,
      connectivityScore := r.connectivityScore,
      amenityScore := FillCell(r.amenityScore, amenityFill),
      possessionStatus := r.possessionStatus,
      salesChannel := r.salesChannel,
      nriBuyer := r.nriBuyer,
      localityInfraScore := r.localityInfraScore,
      avgTrafficTimeMin := r.avgTrafficTimeMin,
      buyerComments := r.buyerComments.GetOr(""),
      pricePerSqft := PricePerSqft(price, size),
      quarterNumber := QuarterNumber(when),
      bhkCount := BhkCount(config),
      bookingStatus := BookingOf(price))
  }

  /** A row whose configuration reads "3bhk " is cleaned to configuration "3BHK" and a count of 3. */
  lemma CleanRowThreeBhk(r: RawRecord, fill: Option<real>, f: Foreign)
    requires r.configuration == Some("3bhk ")
    ensures CleanRow(r, fill, f).configuration == Some("3BHK")
    ensures CleanRow(r, fill, f).bhkCount == Some(3)
  {
    NormaliseExample();
    BhkExample();
  }

  // ------------------------------------------------------- the whole frame

  function AmenityColumn(rows: seq<RawRecord>): (col: seq<Option<real>>)
    ensures |col| == |rows|
  {
    seq(|rows|, i requires 0 <= i < |rows| => rows[i].amenityScore)
  }

  /** The value missing amenity scores take: the mean over the deduplicated rows, before filling. */
  function AmenityFill(raw: seq<RawRecord>): Option<real> {
    Mean(AmenityColumn(Dedup(raw)))
  }

  /** `clean_data` on the rows read from the file: one cleaned row per distinct raw row, in order. */
  function CleanData(raw: seq<RawRecord>, f: Foreign): (out: seq<CleanRecord>)
    ensures |out| == |Dedup(raw)|
    ensures forall i :: 0 <= i < |out| ==> out[i] == CleanRow(Dedup(raw)[i], AmenityFill(raw), f)
  {
    var d := Dedup(raw);
    seq(|d|, i requires 0 <= i < |d| => CleanRow(d[i], AmenityFill(raw), f))
  }

  /** Every output row satisfies `Cleaned`, and every input row appears, cleaned, in the output. */
  lemma CleanDataRows(raw: seq<RawRecord>, f: Foreign)
    ensures forall i :: 0 <= i < |CleanData(raw, f)| ==> Cleaned(CleanData(raw, f)[i])
    ensures forall i :: 0 <= i < |raw| ==> CleanRow(raw[i], AmenityFill(raw), f) in CleanData(raw, f)
  {
    var out := CleanData(raw, f);
    var d := Dedup(raw);
    forall i | 0 <= i < |out|
      ensures Cleaned(out[i])
    {
      assert out[i] == CleanRow(d[i], AmenityFill(raw), f);
    }
    forall i | 0 <= i < |raw|
      ensures CleanRow(raw[i], AmenityFill(raw), f) in out
    {
      var j :| 0 <= j < |d| && d[j] == raw[i];
      assert out[j] == CleanRow(raw[i], AmenityFill(raw), f);
    }
  }

  /** The cleaned amenity column is the deduplicated raw column imputed by its mean. */
  lemma CleanDataAmenity(raw: seq<RawRecord>, f: Foreign)
    ensures var out := CleanData(raw, f);
      seq(|out|, i requires 0 <= i < |out| => out[i].amenityScore) == ImputeMean(AmenityColumn(Dedup(raw)))
  {
  }

  /** Two identical raw rows give exactly one cleaned row; no rows give no rows. */
  lemma CleanDataDuplicates(x: RawRecord, f: Foreign)
    ensures |CleanData([x, x], f)| == 1
    ensures CleanData([], f) == []
  {
    DedupPair(x);
  }
}
