/** The simulator's node id of a point: the 2.5-arc-minute grid cell it lies
    in (scripts/format_for_DTK.py, get_node_id). */
module Grid {

  /** Cells per degree: the resolution is 2.5/60 = 1/24 of a degree. */
  const CellsPerDegree := 24

  /** 1 << 16: room for the row index below the column index. */
  const RowSpan := 65536

  /** int(math.floor(x)) */
  function Floor(x: real): (r: int)
    ensures r as real <= x < r as real + 1.0
  {
    x.Floor
  }

  /** xpix: the grid column of a longitude, counted from -180 degrees. */
  function CellX(lon: real): int
  {
    Floor((lon + 180.0) * CellsPerDegree as real)
  }

  /** ypix: the grid row of a latitude, counted from -90 degrees. */
  function CellY(lat: real): int
  {
    Floor((lat + 90.0) * CellsPerDegree as real)
  }

  /** get_node_id: (xpix << 16) + ypix + 1.  A left shift of a Python int is
      multiplication by 2^16, for negative columns too. */
  function NodeId(lat: real, lon: real): int
  {
    CellX(lon) * RowSpan + CellY(lat) + 1
  }

  /** The point lies in its cell: the cell's south-west corner is at or below
      and left of it, the next cell's corner strictly above and right. */
  lemma {:induction false} PointInCell(lat: real, lon: real)
    ensures var x := CellX(lon);
            (x as real) / 24.0 - 180.0 <= lon < ((x + 1) as real) / 24.0 - 180.0
    ensures var y := CellY(lat);
            (y as real) / 24.0 - 90.0 <= lat < ((y + 1) as real) / 24.0 - 90.0
  {
    var x := CellX(lon);
    assert x as real <= (lon + 180.0) * 24.0 < x as real + 1.0;
    var y := CellY(lat);
    assert y as real <= (lat + 90.0) * 24.0 < y as real + 1.0;
  }

  /** Latitudes of the globe fall in rows 0..4320 (4320 = 180 * 24), and
      longitudes in columns 0..8640. */
  lemma {:induction false} CellRanges(lat: real, lon: real)
    ensures -90.0 <= lat <= 90.0 ==> 0 <= CellY(lat) <= 4320
    ensures -180.0 <= lon <= 180.0 ==> 0 <= CellX(lon) <= 8640
  {
    var y := CellY(lat);
    assert y as real <= (lat + 90.0) * 24.0 < y as real + 1.0;
    var x := CellX(lon);
    assert x as real <= (lon + 180.0) * 24.0 < x as real + 1.0;
  }

  /** The id gives back the cell: the column is (id-1) / 65536 and the row
      (id-1) % 65536, because a row index of the globe is below 65536. */
  lemma {:induction false} NodeIdDecodes(lat: real, lon: real)
    requires -90.0 <= lat <= 90.0
    ensures (NodeId(lat, lon) - 1) / RowSpan == CellX(lon)
    ensures (NodeId(lat, lon) - 1) % RowSpan == CellY(lat)
  {
    CellRanges(lat, lon);
    var x := CellX(lon);
    var y := CellY(lat);
    var n := NodeId(lat, lon) - 1;
    assert n == x * RowSpan + y;
    DivModUnique(n, x, y);
  }

  lemma {:induction false} DivModUnique(n: int, q: int, r: int)
    requires 0 <= r < RowSpan && n == q * RowSpan + r
    ensures n / RowSpan == q && n % RowSpan == r
  {
  }

  /** Two points of the globe get the same id exactly when they lie in the
      same cell. */
  lemma {:induction false} SameIdSameCell(lat1: real, lon1: real, lat2: real, lon2: real)
    requires -90.0 <= lat1 <= 90.0 && -90.0 <= lat2 <= 90.0
    ensures NodeId(lat1, lon1) == NodeId(lat2, lon2) <==> (CellX(lon1) == CellX(lon2) && CellY(lat1) == CellY(lat2))
  {
    NodeIdDecodes(lat1, lon1);
    NodeIdDecodes(lat2, lon2);
  }

  /** Points east of the antimeridian and north of the south pole have ids of
      at least 1. */
  lemma {:induction false} NodeIdPositive(lat: real, lon: real)
    requires -90.0 <= lat && -180.0 <= lon
    ensures NodeId(lat, lon) >= 1
  {
    var x := CellX(lon);
    assert x as real <= (lon + 180.0) * 24.0 < x as real + 1.0;
    var y := CellY(lat);
    assert y as real <= (lat + 90.0) * 24.0 < y as real + 1.0;
  }

  /** The id of the point (0, 0): column 4320, row 2160. */
  lemma {:induction false} OriginId()
    ensures NodeId(0.0, 0.0) == 4320 * 65536 + 2160 + 1
  {
    assert CellX(0.0) == 4320;
    assert CellY(0.0) == 2160;
  }
}
