/**
 * `insert_locality_data`: the `microMarket_locations` table, keyed by
 * locality name, and the upsert of the sixteen built-in localities with
 * their coordinates (`INSERT ... ON DUPLICATE KEY UPDATE`).
 */
module Localities {

  import Text

  /** A latitude and a longitude, in degrees. */
  datatype Coord = Coord(lat: real, lon: real)

  /** A row of the table: the `Locality` key and its coordinates. */
  type LocalityRow = (string, Coord)

  const LocalityNames: seq<string> := [
    "Bannerghatta Road", "Bellary Road", "Domlur", "Electronic City", "Hebbal", "Hennur Road",
    "Indiranagar", "Jayanagar", "JP Nagar", "Kanakapura Road", "Koramangala", "MG Road",
    "Rajajinagar", "Sarjapur Road", "Whitefield", "Yelahanka"]

  const Latitudes: seq<real> := [
    12.8715, 13.0652, 12.9687, 12.8468, 13.0374, 13.0559, 12.9733, 12.9255,
    12.9056, 12.8942, 12.9345, 12.9768, 12.9961, 12.9152, 12.9698, 13.1007]

  const Longitudes: seq<real> := [
    77.5925, 77.5941, 77.6409, 77.6713, 77.5912, 77.6617, 77.6408, 77.5843,
    77.5796, 77.5683, 77.6266, 77.6047, 77.5524, 77.7126, 77.7499, 77.5963]

  /**
   * The rows of the three columns side by side (`[tuple(row) for row in
   * df.values]`): sixteen rows with pairwise distinct keys, so that no row of
   * the upsert overwrites another, the i-th row carrying the i-th locality
   * and its coordinates.
   */
  function LocalityRows(): (rows: seq<LocalityRow>)
    ensures |rows| == 16
    ensures forall i, j :: 0 <= i < j < |rows| ==> rows[i].0 != rows[j].0
    ensures forall i :: 0 <= i < |rows| ==> rows[i].0 == LocalityNames[i]
    ensures forall i :: 0 <= i < |rows| ==> rows[i].1 == Coord(Latitudes[i], Longitudes[i])
  {
    LocalityNamesDistinct();
    seq(|LocalityNames|, i requires 0 <= i < |LocalityNames| => (LocalityNames[i], Coord(Latitudes[i], Longitudes[i])))
  }

  /** The keys the rows carry. */
  function NamesOf(rows: seq<LocalityRow>): set<string>
    decreases |rows|
  {
    if rows == [] then {} else NamesOf(rows[..|rows| - 1]) + {rows[|rows| - 1].0}
  }

  /**
   * The table after the rows are upserted one after the other: a new key is
   * inserted, an existing one has its coordinates replaced.
   */
  function UpsertAll(m: map<string, Coord>, rows: seq<LocalityRow>): (t: map<string, Coord>)
    ensures t.Keys == m.Keys + NamesOf(rows)
    decreases |rows|
  {
    if rows == [] then m
    else UpsertAll(m, rows[..|rows| - 1])[rows[|rows| - 1].0 := rows[|rows| - 1].1]
  }

  /** The upsert overrides the old table with the table the rows alone make. */
  lemma {:induction false} UpsertAllOverride(m: map<string, Coord>, rows: seq<LocalityRow>)
    ensures UpsertAll(m, rows) == m + UpsertAll(map[], rows)
    decreases |rows|
  {
    if rows == [] {
      assert m + map[] == m;
    } else {
      var init, r := rows[..|rows| - 1], rows[|rows| - 1];
      UpsertAllOverride(m, init);
      var l := UpsertAll(map[], init);
      assert (m + l)[r.0 := r.1] == m + l[r.0 := r.1];
    }
  }

  /** A key no row carries keeps its coordinates. */
  lemma {:induction false} UpsertAllUntouched(m: map<string, Coord>, rows: seq<LocalityRow>, k: string)
    requires k in m && k !in NamesOf(rows)
    ensures k in UpsertAll(m, rows) && UpsertAll(m, rows)[k] == m[k]
    decreases |rows|
  {
    if rows != [] {
      UpsertAllUntouched(m, rows[..|rows| - 1], k);
    }
  }

  /** The last row carrying a key decides its coordinates. */
  lemma {:induction false} UpsertAllLatest(m: map<string, Coord>, rows: seq<LocalityRow>, i: nat)
    requires i < |rows|
    requires forall j :: i < j < |rows| ==> rows[j].0 != rows[i].0
    ensures rows[i].0 in UpsertAll(m, rows) && UpsertAll(m, rows)[rows[i].0] == rows[i].1
    decreases |rows|
  {
    var init := rows[..|rows| - 1];
    if i < |rows| - 1 {
      assert init[i] == rows[i];
      UpsertAllLatest(m, init, i);
    }
  }

  /** Upserting the same rows twice leaves the table as once did. */
  lemma UpsertAllIdempotent(m: map<string, Coord>, rows: seq<LocalityRow>)
    ensures UpsertAll(UpsertAll(m, rows), rows) == UpsertAll(m, rows)
  {
    var l := UpsertAll(map[], rows);
    UpsertAllOverride(m, rows);
    UpsertAllOverride(m + l, rows);
    assert (m + l) + l == m + l;
  }

  /** The sixteen localities are distinct, so each is upserted exactly once. */
  lemma LocalityNamesDistinct()
    ensures |LocalityNames| == 16
    ensures forall i, j :: 0 <= i < j < |LocalityNames| ==> LocalityNames[i] != LocalityNames[j]
  {
    forall i, j | 0 <= i < j < |LocalityNames|
      ensures LocalityNames[i] != LocalityNames[j]
    {
      NamesDiffer(i, j);
    }
  }

  /** The length and the first letter of each locality name. */
  const Signatures: seq<(int, char)> := [
    (17, 'B'), (12, 'B'), (6, 'D'), (15, 'E'), (6, 'H'), (11, 'H'), (11, 'I'), (9, 'J'),
    (8, 'J'), (15, 'K'), (11, 'K'), (7, 'M'), (11, 'R'), (13, 'S'), (10, 'W'), (9, 'Y')]

  lemma NamesDiffer(i: nat, j: nat)
    requires i < j < |LocalityNames|
    ensures LocalityNames[i] != LocalityNames[j]
  {
    var a, b := LocalityNames[i], LocalityNames[j];
    assert |a| != |b| || a[0] != b[0] by {
      assert forall k :: 0 <= k < |LocalityNames| ==> (|LocalityNames[k]|, LocalityNames[k][0]) == Signatures[k];
    }
  }

  /** `DECIMAL(10, 8)` and `DECIMAL(11, 8)`: at most 8 decimals, 2 and 3 integer digits. */
  predicate FitsDecimal(x: real, intDigits: nat)
  {
    var scaled := x * 100000000.0;
    && scaled.Floor as real == scaled
    && -(Text.Pow10(intDigits) as real) < x < Text.Pow10(intDigits) as real
  }

  /** Every coordinate fits its column, and the three columns have one entry per locality. */
  lemma CoordinatesFit()
    ensures |Latitudes| == |LocalityNames| && |Longitudes| == |LocalityNames|
    ensures forall i :: 0 <= i < |Latitudes| ==> FitsDecimal(Latitudes[i], 2)
    ensures forall i :: 0 <= i < |Longitudes| ==> FitsDecimal(Longitudes[i], 3)
  {
    assert Text.Pow10(2) == 100 && Text.Pow10(3) == 1000;
  }

  /** The `microMarket_locations` table, which may not have been created yet. */
  class LocationTable {
    var created: bool
    var rows: map<string, Coord>

    constructor (created: bool, rows: map<string, Coord>)
      ensures this.created == created && this.rows == (if created then rows else map[])
    {
      this.created := created;
      this.rows := if created then rows else map[];
    }

    /** `CREATE TABLE IF NOT EXISTS`: an existing table is kept as it is. */
    method CreateIfNotExists()
      modifies this
      ensures created
      ensures rows == if old(created) then old(rows) else map[]
    {
      if !created {
        created := true;
        rows := map[];
      }
    }

    /** `executemany` of the upsert, one row after the other, then `commit()`. */
    method UpsertMany(data: seq<LocalityRow>)
      requires created
      modifies this
      ensures created && rows == UpsertAll(old(rows), data)
    {
      ghost var start := rows;
      var i := 0;
      while i < |data|
        invariant i <= |data| && created
        invariant rows == UpsertAll(start, data[..i])
      {
        assert data[..i + 1][..i] == data[..i];
        rows := rows[data[i].0 := data[i].1];
        i := i + 1;
      }
      assert data[..i] == data;
    }
  }

  /**
   * `insert_locality_data`: afterwards the table exists, it holds every
   * built-in locality with the listed coordinates, and any other locality it
   * held before keeps its row.
   */
  method InsertLocalityData(t: LocationTable)
    modifies t
    ensures t.created
    ensures t.rows == UpsertAll(if old(t.created) then old(t.rows) else map[], LocalityRows())
  {
    t.CreateIfNotExists();
    t.UpsertMany(LocalityRows());
  }

  /**
   * Whatever the table held, the built-in localities end up with exactly
   * their listed coordinates and every other locality keeps its row.
   */
  lemma LocalitiesConverge(m: map<string, Coord>)
    ensures NamesOf(LocalityRows()) <= UpsertAll(m, LocalityRows()).Keys
    ensures forall i :: 0 <= i < |LocalityNames| ==>
      LocalityNames[i] in UpsertAll(m, LocalityRows()) &&
      UpsertAll(m, LocalityRows())[LocalityNames[i]] == Coord(Latitudes[i], Longitudes[i])
    ensures forall k :: k in m && k !in NamesOf(LocalityRows()) ==>
      k in UpsertAll(m, LocalityRows()) && UpsertAll(m, LocalityRows())[k] == m[k]
  {
    var rows := LocalityRows();
    LocalityNamesDistinct();
    forall i | 0 <= i < |LocalityNames|
      ensures LocalityNames[i] in UpsertAll(m, rows)
      ensures UpsertAll(m, rows)[LocalityNames[i]] == Coord(Latitudes[i], Longitudes[i])
    {
      UpsertAllLatest(m, rows, i);
    }
    forall k | k in m && k !in NamesOf(rows)
      ensures k in UpsertAll(m, rows) && UpsertAll(m, rows)[k] == m[k]
    {
      UpsertAllUntouched(m, rows, k);
    }
  }
}
