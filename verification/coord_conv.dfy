/** The linear map between grid indices and geographic degrees.

    Four calibration points fix the map: grid row 9 is latitude 37.1 and row
    135 is latitude 8.1 (rows grow southwards); grid column 16 is longitude
    68.1167 and column 121 is longitude 97.4167.  Degrees coming out of the
    grid are snapped to quarter-degree lattices; degrees going into the grid
    are clamped to the calibrated footprint. */
module CoordConv {
  import opened Rounding

  const NorthernmostLatitude: real := 37.1
  const NorthernmostGridY: int := 9
  const SouthernmostLatitude: real := 8.1
  const SouthernmostGridY: int := 135

  const WesternmostLongitude: real := 68.1167
  const EasternmostLongitude: real := 97.4167
  const WesternmostGridX: int := 16
  const EasternmostGridX: int := 121

  /** The wider region accepted from the user. */
  const MinLongitudeInput: real := 60.0
  const MaxLongitudeInput: real := 100.0
  const MinLatitudeInput: real := 0.0
  const MaxLatitudeInput: real := 40.0

  /** Degrees of latitude per grid row: (37.1 - 8.1) / (9 - 135), negative
      because rows are numbered from the north. */
  const LatitudePerCell: real := -29.0 / 126.0

  /** Degrees of longitude per grid column: (97.4167 - 68.1167) / (121 - 16). */
  const LongitudePerCell: real := 29.3 / 105.0

  /** Multiples of 0.25: where latitudes land. */
  predicate OnLatitudeLattice(v: real) {
    (v * 4.0).Floor as real == v * 4.0
  }

  /** 0.125 plus multiples of 0.25: where longitudes land. */
  predicate OnLongitudeLattice(v: real) {
    OnLatitudeLattice(v - 0.125)
  }

  /** Snap to the nearest multiple of 0.25, then `round(.., 3)`. */
  function RoundLatitude(latitude: real): (r: real)
    ensures OnLatitudeLattice(r)
    ensures -0.125 <= r - latitude <= 0.125
  {
    var snapped := Round(latitude / 0.25) as real * 0.25;
    RoundTo3OfThousandths(snapped, Round(latitude / 0.25) * 250);
    RoundTo3(snapped)
  }

  /** Snap to the nearest 0.125 + 0.25k, then `round(.., 3)`. */
  function RoundLongitude(longitude: real): (r: real)
    ensures OnLongitudeLattice(r)
    ensures -0.125 <= r - longitude <= 0.125
  {
    var snapped := Round((longitude - 0.125) / 0.25) as real * 0.25 + 0.125;
    RoundTo3OfThousandths(snapped, Round((longitude - 0.125) / 0.25) * 250 + 125);
    RoundTo3(snapped)
  }

  /** Latitude of a grid row before snapping: the calibrated linear map. */
  function RawLatitude(gridY: int): real {
    NorthernmostLatitude + (gridY - NorthernmostGridY) as real * LatitudePerCell
  }

  /** Longitude of a grid column before snapping. */
  function RawLongitude(gridX: int): real {
    WesternmostLongitude + (gridX - WesternmostGridX) as real * LongitudePerCell
  }

  function GridToLatitude(gridY: int): (r: real)
    ensures OnLatitudeLattice(r)
    ensures -0.125 <= r - RawLatitude(gridY) <= 0.125
  {
    RoundLatitude(RawLatitude(gridY))
  }

  function GridToLongitude(gridX: int): (r: real)
    ensures OnLongitudeLattice(r)
    ensures -0.125 <= r - RawLongitude(gridX) <= 0.125
  {
    RoundLongitude(RawLongitude(gridX))
  }

  function Min(a: int, b: int): int { if a <= b then a else b }
  function Max(a: int, b: int): int { if a >= b then a else b }

  /** Latitude pulled into the calibrated band [8.1, 37.1]. */
  function ClampLatitude(latitude: real): real {
    if latitude > NorthernmostLatitude then NorthernmostLatitude
    else if latitude < SouthernmostLatitude then SouthernmostLatitude
    else latitude
  }

  /** Longitude pulled into the calibrated band [68.1167, 97.4167]. */
  function ClampLongitude(longitude: real): real {
    if longitude < WesternmostLongitude then WesternmostLongitude
    else if longitude > EasternmostLongitude then EasternmostLongitude
    else longitude
  }

  /** The grid row of a latitude: never outside [9, 135]; north of the
      footprint gives the top row, south of it the bottom row; inside it the
      row whose calibrated latitude is within half a row. */
  function LatitudeToGrid(latitude: real): (gridY: int)
    ensures NorthernmostGridY <= gridY <= SouthernmostGridY
    ensures latitude >= NorthernmostLatitude ==> gridY == NorthernmostGridY
    ensures latitude <= SouthernmostLatitude ==> gridY == SouthernmostGridY
    ensures SouthernmostLatitude <= latitude <= NorthernmostLatitude ==>
              -29.0 / 252.0 <= RawLatitude(gridY) - latitude <= 29.0 / 252.0
  {
    var clamped := ClampLatitude(latitude);
    var row := Round(NorthernmostGridY as real + (clamped - NorthernmostLatitude) / LatitudePerCell);
    RoundMonotone(NorthernmostGridY as real + (clamped - NorthernmostLatitude) / LatitudePerCell,
                  SouthernmostGridY as real);
    RoundMonotone(NorthernmostGridY as real,
                  NorthernmostGridY as real + (clamped - NorthernmostLatitude) / LatitudePerCell);
    RoundOfInteger(NorthernmostGridY);
    RoundOfInteger(SouthernmostGridY);
    Max(NorthernmostGridY, Min(row, SouthernmostGridY))
  }

  /** The grid column of a longitude: never outside [16, 121]; west of the
      footprint gives the first column, east of it the last; inside it the
      column whose calibrated longitude is within half a column. */
  function LongitudeToGrid(longitude: real): (gridX: int)
    ensures WesternmostGridX <= gridX <= EasternmostGridX
    ensures longitude <= WesternmostLongitude ==> gridX == WesternmostGridX
    ensures longitude >= EasternmostLongitude ==> gridX == EasternmostGridX
    ensures WesternmostLongitude <= longitude <= EasternmostLongitude ==>
              -29.3 / 210.0 <= RawLongitude(gridX) - longitude <= 29.3 / 210.0
  {
    var clamped := ClampLongitude(longitude);
    var column := Round(WesternmostGridX as real + (clamped - WesternmostLongitude) / LongitudePerCell);
    RoundMonotone(WesternmostGridX as real + (clamped - WesternmostLongitude) / LongitudePerCell,
                  EasternmostGridX as real);
    RoundMonotone(WesternmostGridX as real,
                  WesternmostGridX as real + (clamped - WesternmostLongitude) / LongitudePerCell);
    RoundOfInteger(WesternmostGridX);
    RoundOfInteger(EasternmostGridX);
    Max(WesternmostGridX, Min(column, EasternmostGridX))
  }

  /** The wider region accepted from the user: 60..100 E, 0..40 N. */
  predicate IsWithinInputBounds(longitude: real, latitude: real) {
    && MinLongitudeInput <= longitude <= MaxLongitudeInput
    && MinLatitudeInput <= latitude <= MaxLatitudeInput
  }

  /** The calibrated footprint; every point of it is acceptable input. */
  function IsWithinGridBounds(longitude: real, latitude: real): (within: bool)
    ensures within ==> IsWithinInputBounds(longitude, latitude)
  {
    && WesternmostLongitude <= longitude <= EasternmostLongitude
    && SouthernmostLatitude <= latitude <= NorthernmostLatitude
  }

  // ---------------------------------------------------------------------------
  // Properties relating several calls
  // ---------------------------------------------------------------------------

  /** A lattice latitude is left where it is. */
  lemma LatitudeLatticeFixed(r: real)
    requires OnLatitudeLattice(r)
    ensures RoundLatitude(r) == r
  {
    var k := (r * 4.0).Floor;
    assert r / 0.25 == k as real;
    RoundOfInteger(k);
    assert Round(r / 0.25) as real * 0.25 == r;
    RoundTo3OfThousandths(r, k * 250);
  }

  /** A lattice longitude is left where it is. */
  lemma LongitudeLatticeFixed(r: real)
    requires OnLongitudeLattice(r)
    ensures RoundLongitude(r) == r
  {
    var k := ((r - 0.125) * 4.0).Floor;
    assert (r - 0.125) / 0.25 == k as real;
    RoundOfInteger(k);
    assert Round((r - 0.125) / 0.25) as real * 0.25 + 0.125 == r;
    RoundTo3OfThousandths(r, k * 250 + 125);
  }

  /** Snapping a latitude twice is snapping it once. */
  lemma RoundLatitudeIdempotent(latitude: real)
    ensures RoundLatitude(RoundLatitude(latitude)) == RoundLatitude(latitude)
  {
    LatitudeLatticeFixed(RoundLatitude(latitude));
  }

  /** Snapping a longitude twice is snapping it once. */
  lemma RoundLongitudeIdempotent(longitude: real)
    ensures RoundLongitude(RoundLongitude(longitude)) == RoundLongitude(longitude)
  {
    LongitudeLatticeFixed(RoundLongitude(longitude));
  }

  /** A further north latitude never lands on a further south row. */
  lemma LatitudeToGridMonotone(a: real, b: real)
    requires a <= b
    ensures LatitudeToGrid(b) <= LatitudeToGrid(a)
  {
    var ca, cb := ClampLatitude(a), ClampLatitude(b);
    assert ca <= cb;
    RoundMonotone(NorthernmostGridY as real + (cb - NorthernmostLatitude) / LatitudePerCell,
                  NorthernmostGridY as real + (ca - NorthernmostLatitude) / LatitudePerCell);
  }

  /** A further east longitude never lands on a further west column. */
  lemma LongitudeToGridMonotone(a: real, b: real)
    requires a <= b
    ensures LongitudeToGrid(a) <= LongitudeToGrid(b)
  {
    var ca, cb := ClampLongitude(a), ClampLongitude(b);
    assert ca <= cb;
    RoundMonotone(WesternmostGridX as real + (ca - WesternmostLongitude) / LongitudePerCell,
                  WesternmostGridX as real + (cb - WesternmostLongitude) / LongitudePerCell);
  }

  /** Column to degrees and back returns the column: a column is wider than
      the quarter-degree snapping can move a longitude. */
  lemma LongitudeRoundTrip(gridX: int)
    requires WesternmostGridX <= gridX <= EasternmostGridX
    ensures LongitudeToGrid(GridToLongitude(gridX)) == gridX
  {
    var lon := GridToLongitude(gridX);
    var c := ClampLongitude(lon);
    var pos := WesternmostGridX as real + (c - WesternmostLongitude) / LongitudePerCell;
    assert -0.5 < pos - gridX as real < 0.5;
    RoundNearest(pos, gridX);
  }

  /** Row to degrees and back misses by at most one row: a row is narrower
      than the quarter-degree snapping can move a latitude. */
  lemma LatitudeRoundTripWithinOneRow(gridY: int)
    requires NorthernmostGridY <= gridY <= SouthernmostGridY
    ensures -1 <= LatitudeToGrid(GridToLatitude(gridY)) - gridY <= 1
  {
    var lat := GridToLatitude(gridY);
    var c := ClampLatitude(lat);
    var pos := NorthernmostGridY as real + (c - NorthernmostLatitude) / LatitudePerCell;
    assert -1.5 < pos - gridY as real < 1.5;
  }

  /** ... and it does miss: row 10 snaps to 36.75 degrees, which is row 11. */
  lemma LatitudeRoundTripCounterexample()
    ensures GridToLatitude(10) == 36.75
    ensures LatitudeToGrid(36.75) == 11
  {
    assert RawLatitude(10) / 0.25 == 147.0 - 116.0 / 126.0 + 1.4;
    assert Round(RawLatitude(10) / 0.25) == 147;
    RoundTo3OfThousandths(36.75, 36750);
    var pos := NorthernmostGridY as real + (36.75 - NorthernmostLatitude) / LatitudePerCell;
    RoundNearest(pos, 11);
  }
}
