# Luxury housing ETL: cleaning, batched load and locality upsert

A Dafny model of the three pieces of the Bangalore luxury-housing pipeline in
`SourceCode/data_clean.py` whose behaviour the script itself fixes:

- **`clean_data`.** Drop exact duplicate rows, keeping the first. Clean the
  price string (delete every rupee sign `₹`, `C`, `r` and whitespace character, parse the
  rest as a decimal, and use 0 when nothing parses). Clamp the unit size.
  Fill missing comments with `""` and missing amenity scores with the column
  mean. Upper-case and trim the configuration. Derive `Booking_Status`,
  `Price_per_Sqft`, `Quarter_Number` and `BHK_Count`. This part is pure
  functions over records (`Cleaning`), with the string work in `Text`, the
  number reader in `Decimal` and the deduplication in `Duplicates`.
- **`insert_data`.** Turn each cleaned row into its 22-value tuple
  (`Serialisation`), gather the tuples into a buffer, and insert and commit
  the buffer each time it reaches 1000 rows. Insert what is left at the end.
  The first database error ends the load. `Loader.InsertData` has the
  source's loop and buffer, and runs against a `Connection` object that holds
  the committed batches and the rows not yet committed. Its post-condition
  gives the exact list of committed batches: the batches of 1000 (`Batching`)
  that the table takes, one after another, before it refuses one. A batch is
  refused when a row violates the `Property_ID` primary key.
- **`insert_locality_data`.** Create the `microMarket_locations` table if it
  does not exist, then upsert the sixteen built-in localities (`INSERT ... ON
  DUPLICATE KEY UPDATE`). The table is a `map` from locality name to
  coordinates, held in a `LocationTable` object (`Localities`).

Calls into pandas whose rules are not fixed by the script are parameters of
the model (`Cleaning.Foreign`): `pd.to_datetime` on one cell, and
`str.title()`. The database is the `Connection` and `LocationTable` objects.
Streamlit output is the `LoadStatus` that `InsertData` returns.

Facts about the code that the model keeps as they are:

- The price is never clamped, so `"-1.5"` stays -1.5 (`Cleaning.CleanPriceNegative`).
- Only `Buyer_Comments` is filled with `""` (`SourceCode/data_clean.py:130`).
  Other missing text columns stay missing.
- Because the comment column is filled before serialisation, the
  NULL-on-missing branch at `SourceCode/data_clean.py:185` is never taken.
  The serialised comment is always present (`Serialisation.Serialise`).
- A batch that repeats a `Property_ID`, or that carries one the table already
  holds, violates the primary key (`SourceCode/data_clean.py:74`). The
  `executemany` raises, and the load ends at that batch (`:191`, `:201`).

## Model

| member | source | states |
|---|---|---|
| Text.Trim | SourceCode/data_clean.py:134 | `str.strip()` returns an infix of the input: it is empty exactly when the input is all whitespace, it is preceded and followed only by whitespace, and it neither starts nor ends with whitespace |
| Text.TrimAt | SourceCode/data_clean.py:134 | the strip starts exactly where the leading whitespace ends, and only whitespace follows it |
| Text.TrimNoPad | SourceCode/data_clean.py:127 | stripping a string that neither starts nor ends with whitespace changes nothing |
| Text.TrimTrailing | SourceCode/data_clean.py:134 | stripping removes exactly the trailing whitespace after a non-blank text |
| Text.TrimKeeps | SourceCode/data_clean.py:134 | any property of every character of a string holds of every character of its strip |
| Text.Upper | SourceCode/data_clean.py:134 | upper-casing keeps the length and leaves no lower-case letter; each lower-case letter becomes the upper-case letter at the same place in the alphabet; every other character is kept |
| Text.UpperProperties | SourceCode/data_clean.py:134 | upper-casing keeps digits and whitespace where they were, and upper-casing twice is upper-casing once |
| Text.FirstDigitRun | SourceCode/data_clean.py:142 | `(\d+)` finds nothing exactly when there is no digit; otherwise it finds a non-empty run of digits, with no digit before it and none right after it |
| Text.FirstDigitRunUnique | SourceCode/data_clean.py:142 | that run is determined: a string has only one first maximal run of digits |
| Text.Pad | SourceCode/data_clean.py:182 | a zero-padded numeric field has exactly its width, all digits |
| Text.PadValue | SourceCode/data_clean.py:182 | a zero-padded field reads back as the number, when the number fits the width |
| Decimal.ParseDecimal | SourceCode/data_clean.py:128 | only a non-empty text reads as a number; a literal written with `-` reads as a value ≤ 0, and any other as a value ≥ 0 |
| Decimal.ParseRender | SourceCode/data_clean.py:128 | every well-formed decimal literal parses to its value: a sign, integer digits and an optional point followed by fraction digits |
| Decimal.ParseSound | SourceCode/data_clean.py:128 | whatever parses is a well-formed literal whose value is the result |
| Decimal.ParseUnsignedRender | SourceCode/data_clean.py:128 | an unsigned well-formed literal parses to its digits' value |
| Decimal.ParseUnsignedSound | SourceCode/data_clean.py:128 | an unsigned reading comes from a well-formed unsigned literal of that value |
| Decimal.RenderSign | SourceCode/data_clean.py:128 | the parser recovers the sign and the unsigned part a literal was written with |
| Decimal.ParseOnePointFive | SourceCode/data_clean.py:128 | "1.5" reads as 1.5 |
| Decimal.ParseMinusOnePointFive | SourceCode/data_clean.py:128 | "-1.5" reads as -1.5 |
| Decimal.ParseNonNumbers | SourceCode/data_clean.py:127-128 | neither "" nor "nan" reads as a number |
| Decimal.ParseTrailingJunk | SourceCode/data_clean.py:128 | "1.5oe" is no number (`errors='coerce'`) |
| Duplicates.Dedup | SourceCode/data_clean.py:126 | `drop_duplicates()`: every input row appears in the output, every output row comes from the input, and no two output rows are equal |
| Duplicates.DedupKeepsFirstOrder | SourceCode/data_clean.py:126 | the surviving rows keep the order of their first occurrences |
| Duplicates.DedupDistinct | SourceCode/data_clean.py:126 | a frame without duplicates passes through unchanged |
| Duplicates.DedupIdempotent | SourceCode/data_clean.py:126 | deduplicating twice is deduplicating once |
| Duplicates.DedupPair | SourceCode/data_clean.py:126 | two equal rows become one |
| Cleaning.StripPrice | SourceCode/data_clean.py:127 | deleting `[₹Cr\s]` leaves no character of the class and never lengthens the text |
| Cleaning.StripPriceAppend | SourceCode/data_clean.py:127 | the deletion works piece by piece over a concatenation |
| Cleaning.StripPriceKeeps | SourceCode/data_clean.py:127 | text free of the class is left unchanged |
| Cleaning.StripPriceDrops | SourceCode/data_clean.py:127 | each of `₹`, `C`, `r` and every whitespace character is deleted |
| Cleaning.CleanPrice | SourceCode/data_clean.py:127-128 | the cleaned price (of the `astype(str)` text, `PriceText`, which reads a missing cell as "nan") is the decimal value of the stripped text, and 0 when it is not a number (missing, "", "nan", junk); the sign is kept |
| Cleaning.CleanPriceRupees | SourceCode/data_clean.py:127-128 | "₹1.5 Cr" is 1.5 |
| Cleaning.CleanPriceMissing | SourceCode/data_clean.py:127-128 | an empty or missing price is 0 |
| Cleaning.CleanPriceNegative | SourceCode/data_clean.py:127-128 | "-1.5" stays -1.5: no clamping |
| Cleaning.StripCrore | SourceCode/data_clean.py:127 | the class deletes `C` and `r` anywhere: "1.5 Crore" leaves "1.5oe" |
| Cleaning.CleanPriceCrore | SourceCode/data_clean.py:127-128 | "1.5 Crore" is therefore 0 |
| Cleaning.ClampSize | SourceCode/data_clean.py:129 | the size is never negative; a non-negative size is kept; a negative or missing size is 0 |
| Cleaning.BookingOf | SourceCode/data_clean.py:137 | a row is Booked exactly when its price is positive |
| Cleaning.PricePerSqft | SourceCode/data_clean.py:138 | for a positive size, rate × size = price × 10⁷; otherwise the rate is 0 |
| Cleaning.QuarterOf | SourceCode/data_clean.py:140 | the quarter q of a month is in 1..4, with the month in 3q-2..3q |
| Cleaning.QuarterNumber | SourceCode/data_clean.py:139-140 | `Quarter_Number` is in 0..4; it is 0 exactly when there is no timestamp; otherwise it is the quarter of the month |
| Cleaning.NormaliseConfiguration | SourceCode/data_clean.py:134 | the normalised configuration is the upper-cased input from the end of its leading whitespace on, followed only by whitespace: it is empty exactly when the input is all whitespace, has no lower-case letter, neither starts nor ends with whitespace, and has a digit exactly when the input has one |
| Cleaning.NormaliseExample | SourceCode/data_clean.py:134 | "3bhk " becomes "3BHK" |
| Cleaning.CleanRowThreeBhk | SourceCode/data_clean.py:134-142 | a row whose configuration is "3bhk " is cleaned to configuration "3BHK" with a BHK count of 3 |
| Cleaning.BhkCount | SourceCode/data_clean.py:141-142 | `BHK_Count` is missing exactly when the configuration is missing or has no digit; a present count is the value of the first maximal run of digits |
| Cleaning.BhkCountOfRun | SourceCode/data_clean.py:141-142 | whichever run is the first maximal run of digits gives the count |
| Cleaning.BhkExample | SourceCode/data_clean.py:142 | "3BHK" gives 3 |
| Cleaning.BhkStudio | SourceCode/data_clean.py:142 | "STUDIO" gives no count |
| Cleaning.Mean | SourceCode/data_clean.py:131 | the mean is missing exactly when no score is present; otherwise mean × count of present scores = their sum |
| Cleaning.FillTotals | SourceCode/data_clean.py:132 | after filling with a value, every entry is present, and the sum grows by the value once per filled entry |
| Cleaning.ImputeMean | SourceCode/data_clean.py:131-132 | present amenity scores are unchanged; missing ones all take the mean of the present scores taken before filling; nothing is missing afterwards unless everything was |
| Cleaning.ImputeMeanKeepsMean | SourceCode/data_clean.py:131-132 | filling with the mean leaves the column mean unchanged |
| Cleaning.CleanRow | SourceCode/data_clean.py:127-142 | every cleaned row satisfies all of the following: the size is non-negative; it is Booked exactly when the price is positive; its price per square foot is the rate; its quarter number is in 0..4, is 0 exactly when there is no timestamp, and matches the month; its BHK count is missing exactly when there is no digit, and is otherwise the first run of digits. It also has the cleaned price, the clamped size, the comment filled with "", the amenity score filled, the normalised configuration, the timestamp as the given parser reads the cell (`ParseQuarter`, missing for a missing cell), the title-cased and stripped market and buyer type, and every uncleaned column as it was |
| Cleaning.CleanData | SourceCode/data_clean.py:126-147 | one output row per distinct input row: the i-th output row is the i-th deduplicated row, cleaned |
| Cleaning.CleanDataRows | SourceCode/data_clean.py:126-147 | every output row satisfies the cleaning invariant, and every input row appears, cleaned, in the output |
| Cleaning.CleanDataAmenity | SourceCode/data_clean.py:126-132 | the output amenity column is the deduplicated input column imputed by its mean |
| Cleaning.CleanDataDuplicates | SourceCode/data_clean.py:126 | two identical input rows give one output row; no rows give no rows |
| Serialisation.FormatTimestamp | SourceCode/data_clean.py:182 | `strftime('%Y-%m-%d %H:%M:%S')` is 19 characters, with its separators in place |
| Serialisation.TimestampRoundTrip | SourceCode/data_clean.py:182 | the serialised timestamp reads back as the timestamp |
| Serialisation.BookingTextFits | SourceCode/data_clean.py:95 | both booking labels fit `VARCHAR(10)`, and they differ |
| Serialisation.Serialise | SourceCode/data_clean.py:179-187 | the tuple keeps the primary key and every other column as it is; its timestamp is NULL exactly when there is none and otherwise the formatted timestamp; its comment is the filled comment, never NULL; its booking status is the label |
| Serialisation.SerialiseReadsBack | SourceCode/data_clean.py:179-187 | the stored row reads back with the same timestamp, the same booking status and the same comment |
| Batching.Chunks | SourceCode/data_clean.py:175-197 | every batch is non-empty and holds at most 1000 rows; all batches but the last hold exactly 1000 |
| Batching.ChunksFlatten | SourceCode/data_clean.py:175-197 | the batches, concatenated, are all rows in order |
| Batching.ChunksCount | SourceCode/data_clean.py:175-197 | there are no batches exactly when there are no rows; otherwise there are ⌈n/1000⌉ |
| Batching.ScanChunks | SourceCode/data_clean.py:176-197 | the buffer loop `Scan` (append, flush at 1000, flush what is left) emits exactly the batches of `Chunks`, whatever partial buffer it starts from |
| Batching.ScanIsChunks | SourceCode/data_clean.py:176-197 | starting with an empty buffer, the loop cuts the rows exactly as `Chunks` does |
| Batching.ChunksOf2500 | SourceCode/data_clean.py:175-197 | 2500 rows make three batches: 1000, 1000 and 500 |
| Loader.KeysOfMembers | SourceCode/data_clean.py:74 | a key is among the rows' primary keys exactly when some row carries it |
| Loader.AdmitsMeans | SourceCode/data_clean.py:191 | `Admits`, the primary-key rule of `:74`, in closed form: a multi-row insert is taken exactly when every row has a primary key that is not stored yet, and no two rows share one |
| Loader.AdmitsKeys | SourceCode/data_clean.py:191 | a taken insert brings one new key per row: none of its keys is stored already, and it has as many keys as rows |
| Loader.AdmitsAppend | SourceCode/data_clean.py:191 | an insert of a + b is taken exactly when a is taken and then b is taken by the table holding a's keys too |
| Loader.AcceptedStep | SourceCode/data_clean.py:190-197 | once the first k batches are in, batch k goes in exactly when the table holding their keys admits it |
| Loader.AcceptedAll | SourceCode/data_clean.py:190-197 | if all the rows would go in as one insert, every batch goes in |
| Loader.RefusedWhenStored | SourceCode/data_clean.py:191 | a first batch whose keys are all stored already is refused |
| Loader.SerialiseAll | SourceCode/data_clean.py:178-188 | one tuple per row |
| Loader.SerialiseAllAt | SourceCode/data_clean.py:178-188 | in order: the i-th tuple is the i-th row serialised |
| Loader.Connection.ExecuteMany | SourceCode/data_clean.py:191 | `executemany` takes the insert whole exactly when the table admits it, adds the rows to the uncommitted ones and their keys to the stored keys, and otherwise changes nothing |
| Loader.Connection.Commit | SourceCode/data_clean.py:192 | `commit()` makes the uncommitted rows one more committed batch and leaves the stored keys as they are |
| Loader.InsertBatch | SourceCode/data_clean.py:190-197 | one flush: the batch is committed exactly when it is the next batch the table takes; a refused batch leaves the table with the batches it took before |
| Loader.InsertData | SourceCode/data_clean.py:151-205 | empty input reports the error and changes nothing. Otherwise the committed batches grow by exactly the leading batches of 1000 that the table takes. The status is success with the row count when all are taken, and otherwise the failing batch's number |
| Loader.FreshRowsAdmitted | SourceCode/data_clean.py:178-191 | rows with present, distinct, not yet stored keys go in as one insert |
| Loader.LoadFreshRows | SourceCode/data_clean.py:175-197 | with such keys every batch is committed; the committed rows are all rows in order; there are ⌈n/1000⌉ commits |
| Loader.ReloadRefused | SourceCode/data_clean.py:175-197 | loading the same rows again after they were stored commits nothing |
| Localities.LocalityRows | SourceCode/data_clean.py:213-243 | sixteen rows with pairwise distinct keys, the i-th pairing the i-th locality with the i-th latitude and longitude |
| Localities.UpsertAllOverride | SourceCode/data_clean.py:238-244 | the upsert overrides the old table with the table the rows alone make |
| Localities.UpsertAll | SourceCode/data_clean.py:238-244 | the keys after the upsert are the old keys plus the keys of the rows |
| Localities.UpsertAllUntouched | SourceCode/data_clean.py:238-244 | a key no row carries keeps its coordinates |
| Localities.UpsertAllLatest | SourceCode/data_clean.py:241 | the last row carrying a key decides its coordinates |
| Localities.UpsertAllIdempotent | SourceCode/data_clean.py:238-244 | upserting the rows twice leaves the same table as upserting them once |
| Localities.LocalityNamesDistinct | SourceCode/data_clean.py:214 | the sixteen locality names are pairwise distinct |
| Localities.CoordinatesFit | SourceCode/data_clean.py:213-232 | each coordinate list has one entry per locality, and every latitude fits `DECIMAL(10, 8)` and every longitude `DECIMAL(11, 8)` |
| Localities.LocationTable.CreateIfNotExists | SourceCode/data_clean.py:228-235 | afterwards the table exists; an existing table keeps its rows, a new one is empty |
| Localities.LocationTable.UpsertMany | SourceCode/data_clean.py:238-246 | the rows are upserted one after the other into the table |
| Localities.InsertLocalityData | SourceCode/data_clean.py:207-253 | the table exists, and it is its old contents, or empty, with the sixteen built-in rows upserted |
| Localities.LocalitiesConverge | SourceCode/data_clean.py:213-244 | whatever the table held, every built-in locality ends up with exactly its listed coordinates, and every other locality keeps its row |

## Left out

- Reading the CSV (`pd.read_csv`, `SourceCode/data_clean.py:120`) and its missing-file branch. The model starts from the rows as read.
- Connection creation and caching (`get_db_connection_cached`, `@st.cache_resource`), `CREATE DATABASE`, the main table's DDL, cursor closing, the validation queries and `main`. These are database plumbing and UI wiring, outside the core.
- Streamlit status messages. `InsertData` returns the outcome as a `LoadStatus` instead, and the error text is not modelled.
- Cleaning.ParseQuarter: parses each cell on its own with the given function. `pd.to_datetime` parses the whole column at once (`SourceCode/data_clean.py:139`), and recent pandas infers one format from the first non-missing value, so a cell can read differently depending on the other rows. A per-cell parser cannot express that.
- Cleaning.CleanRow: `Buyer_Type` is always cleaned. The guard `'Buyer_Type' in data.columns` (`SourceCode/data_clean.py:135`) is taken as true, because the row schema always has the column. The same holds for the `Configuration` guard at `:141`.
- `pd.to_datetime` and `str.title()` (`SourceCode/data_clean.py:133`, `:136`, `:139`) are passed in as functions (`Cleaning.Foreign`), because their parsing and Unicode word rules belong to pandas.
- Cleaning.CleanRow: the booking status can differ from the source's in two cases. A price below 0.0005 rounds to 0 at `SourceCode/data_clean.py:128`, so the source says Not Booked where the model, without rounding, says Booked. A price of "inf" is Booked in the source at `:137` and then zeroed at `:145`, whereas the model reads it as no number, so price 0, Not Booked.
- Cleaning.CleanPrice: omits `.round(3)`, and reads only finite decimals. `to_numeric` also accepts exponents, `inf` and `nan` spellings; those read as missing here.
- Cleaning.InPriceClass: the first character of the class at `SourceCode/data_clean.py:127` reads `‚Çπ` in the file (U+201A, U+00C7, U+03C0). That is the UTF-8 encoding of `₹` (U+20B9) displayed as Mac Roman. The whole file is garbled the same way: its ✅ status marks read `‚úÖ` (`:53`, `:100`). The model takes the class as the intended `[₹Cr\s]`. As literally written, the class would delete `‚`, `Ç`, `π`, `C`, `r` and whitespace but keep `₹`. Then "₹1.5 Cr" would become "₹1.5", `to_numeric(errors='coerce')` would make it NaN, and the row would get price 0 and Not Booked, where the model gives 1.5 and Booked.
- Cleaning.PricePerSqft: omits `.round(3)`. The price is exact real arithmetic, not floating point.
- Cleaning.CleanData: omits the sweep that replaces infinite values with 0 (`SourceCode/data_clean.py:143-145`). The model's inputs are finite reals and its arithmetic is exact, so no cell of it is ever infinite. The source's infinite cases are not modelled: `read_csv` reading "inf" in a numeric column such as `Unit_Size_Sqft` or a score, and float overflow, for example price × 10⁷ divided by a tiny size.
- Cleaning.ImputeMean: an all-missing column has no mean (`None`) rather than NaN. Floating-point summation is not modelled.
- Text.Upper: upper-cases ASCII letters only. `FirstDigitRun` and `IsDigit` take ASCII digits only, while Python's `str.upper()` and `\d` are Unicode-wide.
- Serialisation.FormatTimestamp: covers whole seconds in pandas' nanosecond year range. Sub-second parts are not modelled, since `strftime` drops them. `Records.DateTime` allows days 1..31 in every month, so a parser given as `Cleaning.Foreign` could return a date such as 2024-02-31. The model formats that date and `Loader.Admits` takes the row, whereas a strict-mode DATETIME column would refuse it. pandas itself never produces such a date.
- The `VARCHAR` widths of the main table (`SourceCode/data_clean.py:72-96`) are not checked, except `Booking_Status`'s.
- Loader.Connection.ExecuteMany: refuses an insert only for a key stored already, a key repeated within the insert, or a missing `Property_ID`. Refusing a missing key is the model's own choice; what the server does with a NaN or NULL key is not modelled. Other driver or server errors (type mismatches, lost connections) are not modelled.
- Loader.Connection.ExecuteMany: compares `Property_ID` keys as exact strings. MySQL compares them under the column's collation, which is case-insensitive by default, so "p1" and "P1" collide in the table but not in the model.
- Localities.UpsertAll: compares locality names as exact strings. Under a case-insensitive collation, an existing "jp nagar" row would be updated in place by `ON DUPLICATE KEY UPDATE` (`SourceCode/data_clean.py:241`). The model keeps that row and adds "JP Nagar". The sixteen built-in names differ even ignoring case.
- Serialisation.Serialise: binds every missing cell as `None`. The source converts only the timestamp (`SourceCode/data_clean.py:182`) and the comment (`:185`) to `None`. Other columns go through `row.get`, which hands the driver NaN for a missing cell, for example a missing `Micro_Market` or the `BHK_Count` of a configuration without a digit. What the driver and server do with NaN is not modelled.
- The locality insert's error branch. `InsertLocalityData` treats the table creation, the upsert and the commit as succeeding. DECIMAL rounding of coordinates is not needed, because they fit their columns (`Localities.CoordinatesFit`).
