/**
 * What the brushes see of the map: coordinates, the `MapCache` queries they
 * make, and C++ integer division. Tile classification and the designation
 * bit layout are abstracted to the values the brushes read.
 */
module MapModel {

  /** A `DFCoord` / `df::coord`. */
  datatype Coord = Coord(x: int, y: int, z: int)

  /** What the brushes ask of a tile type: `LowPassable` and `HighPassable`. */
  datatype TileType = TileType(lowPassable: bool, highPassable: bool)

  datatype LiquidType = Water | Magma

  /** The two `tile_designation` bits the flood brush reads. */
  datatype Designation = Designation(flowSize: nat, liquidType: LiquidType)

  /**
   * A `MapExtras::MapCache`: the finite set of coordinates `testCoord`
   * accepts, and the tile type and designation at every coordinate.
   */
  datatype MapCache = MapCache(
    valid: set<Coord>,
    tiletypeAt: Coord -> TileType,
    designationAt: Coord -> Designation)

  predicate TestCoord(mc: MapCache, c: Coord)
  {
    c in mc.valid
  }

  predicate LowPassable(tt: TileType)
  {
    tt.lowPassable
  }

  predicate HighPassable(tt: TileType)
  {
    tt.highPassable
  }

  /** C++ `a / b` on `int`, which truncates toward zero. */
  function TruncDiv(a: int, b: int): (q: int)
    requires b > 0
    ensures a >= 0 ==> 0 <= q && q * b <= a < q * b + b
    ensures a < 0 ==> q <= 0 && q * b - b < a <= q * b
  {
    if a >= 0 then DivBounds(a, b); a / b else DivBounds(-a, b); -((-a) / b)
  }

  /** Euclidean division of a non-negative dividend brackets it between multiples. */
  lemma DivBounds(a: nat, b: int)
    requires b > 0
    ensures 0 <= a / b && (a / b) * b <= a < (a / b) * b + b
  {
    assert a == (a / b) * b + a % b;
  }
}
