/**
 * The map brushes: each turns a start coordinate into the list of map
 * coordinates a tool should act on.
 */
module Brushes {
  import opened MapModel

  /** `c` lies in the box whose lowest corner is `lo` and whose extents are `dx`, `dy`, `dz`. */
  predicate InBox(c: Coord, lo: Coord, dx: int, dy: int, dz: int)
  {
    lo.x <= c.x < lo.x + dx && lo.y <= c.y < lo.y + dy && lo.z <= c.z < lo.z + dz
  }

  /** The order the nested loops visit coordinates in: x-major, then y, then z. */
  predicate Before(a: Coord, b: Coord)
  {
    a.x < b.x || (a.x == b.x && (a.y < b.y || (a.y == b.y && a.z < b.z)))
  }

  /** Strictly ascending in visiting order, hence free of duplicates. */
  predicate Ascending(v: seq<Coord>)
  {
    forall i, j :: 0 <= i < j < |v| ==> Before(v[i], v[j])
  }

  /** The number of iterations of `for (i = 0; i < n; i++)`. */
  function Span(n: int): nat
  {
    if n > 0 then n else 0
  }

  /** `a * b` by repeated addition, which keeps the loop counting linear. */
  function Times(a: nat, b: nat): nat
  {
    if a == 0 then 0 else Times(a - 1, b) + b
  }

  lemma {:induction false} TimesIsProduct(a: nat, b: nat)
    ensures Times(a, b) == a * b
  {
    if a > 0 {
      TimesIsProduct(a - 1, b);
    }
  }

  lemma BoxCount(x: nat, y: nat, z: nat)
    ensures Times(x, Times(y, z)) == x * y * z
    ensures x == 0 || y == 0 || z == 0 ==> Times(x, Times(y, z)) == 0
  {
    TimesIsProduct(y, z);
    TimesIsProduct(x, Times(y, z));
    assert x * (y * z) == x * y * z;
  }

  /**
   * The box scan so far: `v` holds, in visiting order, exactly the valid box
   * coordinates visited before `iter`.
   */
  ghost predicate Scanned(mc: MapCache, v: seq<Coord>, lo: Coord, dx: int, dy: int, dz: int, iter: Coord)
  {
    && (forall k :: 0 <= k < |v| ==> TestCoord(mc, v[k]) && InBox(v[k], lo, dx, dy, dz) && Before(v[k], iter))
    && Ascending(v)
    && (forall c :: InBox(c, lo, dx, dy, dz) && Before(c, iter) && TestCoord(mc, c) ==> c in v)
  }

  /** Visiting one more box coordinate: keep it when it is valid, then step up in z. */
  lemma ScanVisit(mc: MapCache, v: seq<Coord>, lo: Coord, dx: int, dy: int, dz: int, iter: Coord)
    requires Scanned(mc, v, lo, dx, dy, dz, iter) && InBox(iter, lo, dx, dy, dz)
    ensures Scanned(mc, if TestCoord(mc, iter) then v + [iter] else v, lo, dx, dy, dz, iter.(z := iter.z + 1))
  {
    var w := if TestCoord(mc, iter) then v + [iter] else v;
    var next := iter.(z := iter.z + 1);
    forall c | InBox(c, lo, dx, dy, dz) && Before(c, next) && TestCoord(mc, c) ensures c in w {
      if c != iter {
        assert Before(c, iter);
      }
    }
  }

  /** Past the top of a column of the box, the scan goes on at the bottom of the next one. */
  lemma ScanNextRow(mc: MapCache, v: seq<Coord>, lo: Coord, dx: int, dy: int, dz: int, iter: Coord)
    requires Scanned(mc, v, lo, dx, dy, dz, iter)
    requires iter.z == lo.z + Span(dz)
    ensures Scanned(mc, v, lo, dx, dy, dz, Coord(iter.x, iter.y + 1, lo.z))
  {
    var next := Coord(iter.x, iter.y + 1, lo.z);
    forall c | InBox(c, lo, dx, dy, dz) && Before(c, next) && TestCoord(mc, c) ensures c in v {
      assert Before(c, iter);
    }
  }

  /** Past the last column of a plane of the box, the scan goes on at the start of the next plane. */
  lemma ScanNextPlane(mc: MapCache, v: seq<Coord>, lo: Coord, dx: int, dy: int, dz: int, iter: Coord)
    requires Scanned(mc, v, lo, dx, dy, dz, iter)
    requires iter.y == lo.y + Span(dy) && iter.z == lo.z
    ensures Scanned(mc, v, lo, dx, dy, dz, Coord(iter.x + 1, lo.y, lo.z))
  {
    var next := Coord(iter.x + 1, lo.y, lo.z);
    forall c | InBox(c, lo, dx, dy, dz) && Before(c, next) && TestCoord(mc, c) ensures c in v {
      assert Before(c, iter);
    }
  }

  /** Once past the last plane, every valid box coordinate has been collected. */
  lemma ScanFinished(mc: MapCache, v: seq<Coord>, lo: Coord, dx: int, dy: int, dz: int, iter: Coord)
    requires Scanned(mc, v, lo, dx, dy, dz, iter)
    requires iter == Coord(lo.x + Span(dx), lo.y, lo.z)
    ensures forall c :: InBox(c, lo, dx, dy, dz) && TestCoord(mc, c) ==> c in v
  {
    forall c | InBox(c, lo, dx, dy, dz) && TestCoord(mc, c) ensures c in v {
      assert Before(c, iter);
    }
  }

  // ---------------------------------------------------------------------
  // RectangleBrush

  /** A 3-D box of the given extents placed around a chosen centre tile. */
  class RectangleBrush {
    var dimX: int
    var dimY: int
    var dimZ: int
    var centerX: int
    var centerY: int
    var centerZ: int

    /** A centre argument of -1 stands for the middle of that extent, `x/2` in C++. */
    constructor (x: int, y: int, z: int := 1, centerx: int := -1, centery: int := -1, centerz: int := -1)
      ensures dimX == x && dimY == y && dimZ == z
      ensures centerX == (if centerx == -1 then TruncDiv(x, 2) else centerx)
      ensures centerY == (if centery == -1 then TruncDiv(y, 2) else centery)
      ensures centerZ == (if centerz == -1 then TruncDiv(z, 2) else centerz)
    {
      if centerx == -1 {
        centerX := TruncDiv(x, 2);
      } else {
        centerX := centerx;
      }
      if centery == -1 {
        centerY := TruncDiv(y, 2);
      } else {
        centerY := centery;
      }
      if centerz == -1 {
        centerZ := TruncDiv(z, 2);
      } else {
        centerZ := centerz;
      }
      dimX := x;
      dimY := y;
      dimZ := z;
    }

    /** The lowest corner of the box placed for `start`. */
    function Corner(start: Coord): Coord
      reads this
    {
      Coord(start.x - centerX, start.y - centerY, start.z - centerZ)
    }

    /**
     * The valid coordinates of the box, in visiting order: all of them and
     * nothing else, at most x*y*z of them, and exactly that many when the
     * whole box is valid.
     */
    method Points(mc: MapCache, start: Coord) returns (v: seq<Coord>)
      ensures forall k :: 0 <= k < |v| ==>
        TestCoord(mc, v[k]) && InBox(v[k], Corner(start), dimX, dimY, dimZ)
      ensures Ascending(v)
      ensures forall c :: InBox(c, Corner(start), dimX, dimY, dimZ) && TestCoord(mc, c) ==> c in v
      ensures |v| <= Span(dimX) * Span(dimY) * Span(dimZ)
      ensures (forall c :: InBox(c, Corner(start), dimX, dimY, dimZ) ==> TestCoord(mc, c)) ==>
        |v| == Span(dimX) * Span(dimY) * Span(dimZ)
      ensures dimX <= 0 || dimY <= 0 || dimZ <= 0 ==> v == []
    {
      v := [];
      var dx, dy, dz := dimX, dimY, dimZ;
      var lo := Coord(start.x - centerX, start.y - centerY, start.z - centerZ);
      var iter := lo;
      ghost var X, Y, Z := Span(dx), Span(dy), Span(dz);
      ghost var YZ := Times(Y, Z);
      ghost var skipped: nat := 0;
      ghost var gap := lo;
      var xi := 0;
      while xi < dx
        invariant 0 <= xi <= X
        invariant iter == Coord(lo.x + xi, lo.y, lo.z)
        invariant Scanned(mc, v, lo, dx, dy, dz, iter)
        invariant |v| + skipped == Times(xi, YZ)
        invariant skipped > 0 ==> InBox(gap, lo, dx, dy, dz) && !TestCoord(mc, gap)
      {
        var yi := 0;
        ghost var planeBase := |v| + skipped;
        while yi < dy
          invariant 0 <= yi <= Y
          invariant iter == Coord(lo.x + xi, lo.y + yi, lo.z)
          invariant Scanned(mc, v, lo, dx, dy, dz, iter)
          invariant |v| + skipped == planeBase + Times(yi, Z)
          invariant skipped > 0 ==> InBox(gap, lo, dx, dy, dz) && !TestCoord(mc, gap)
        {
          var zi := 0;
          ghost var rowBase := |v| + skipped;
          while zi < dz
            invariant 0 <= zi <= Z
            invariant iter == Coord(lo.x + xi, lo.y + yi, lo.z + zi)
            invariant Scanned(mc, v, lo, dx, dy, dz, iter)
            invariant |v| + skipped == rowBase + zi
            invariant skipped > 0 ==> InBox(gap, lo, dx, dy, dz) && !TestCoord(mc, gap)
          {
            ScanVisit(mc, v, lo, dx, dy, dz, iter);
            if TestCoord(mc, iter) {
              v := v + [iter];
            } else {
              skipped, gap := skipped + 1, iter;
            }
            iter := iter.(z := iter.z + 1);
            zi := zi + 1;
          }
          ScanNextRow(mc, v, lo, dx, dy, dz, iter);
          iter := iter.(z := lo.z);
          iter := iter.(y := iter.y + 1);
          yi := yi + 1;
        }
        ScanNextPlane(mc, v, lo, dx, dy, dz, iter);
        iter := iter.(y := lo.y);
        iter := iter.(x := iter.x + 1);
        xi := xi + 1;
      }
      ScanFinished(mc, v, lo, dx, dy, dz, iter);
      BoxCount(X, Y, Z);
    }
  }

  // ---------------------------------------------------------------------
  // BlockBrush

  /** The first coordinate of the 16-wide map block holding `a`: `(a / 16) * 16` in C++. */
  function BlockBase(a: int): int
  {
    16 * TruncDiv(a, 16)
  }

  /**
   * BlockBrush: nothing when `start` is invalid, otherwise all 256 coordinates
   * of the map block holding `start`, on its z-level, in x-major order.
   */
  method BlockPoints(mc: MapCache, start: Coord) returns (v: seq<Coord>)
    ensures !TestCoord(mc, start) ==> v == []
    ensures TestCoord(mc, start) ==> |v| == 256
    ensures TestCoord(mc, start) ==> forall k :: 0 <= k < |v| ==>
      v[k] == Coord(BlockBase(start.x) + k / 16, BlockBase(start.y) + k % 16, start.z)
    ensures TestCoord(mc, start) ==> forall c ::
      InBox(c, Coord(BlockBase(start.x), BlockBase(start.y), start.z), 16, 16, 1) ==> c in v
    ensures Ascending(v)
    ensures TestCoord(mc, start) && start.x >= 0 && start.y >= 0 ==> start in v
  {
    v := [];
    var blockc := Coord(TruncDiv(start.x, 16), TruncDiv(start.y, 16), start.z);
    var iterc := Coord(blockc.x * 16, blockc.y * 16, blockc.z);
    if !TestCoord(mc, start) {
      return;
    }
    var baseX, baseY := iterc.x, iterc.y;
    var starty := iterc.y;
    var xi := 0;
    while xi < 16
      invariant 0 <= xi <= 16
      invariant iterc == Coord(baseX + xi, baseY, start.z)
      invariant |v| == 16 * xi
      invariant forall k :: 0 <= k < |v| ==> v[k] == Coord(baseX + k / 16, baseY + k % 16, start.z)
      invariant forall k :: 0 <= k < |v| ==> Before(v[k], iterc)
      invariant Ascending(v)
    {
      var yi := 0;
      while yi < 16
        invariant 0 <= yi <= 16
        invariant iterc == Coord(baseX + xi, baseY + yi, start.z)
        invariant |v| == 16 * xi + yi
        invariant forall k :: 0 <= k < |v| ==> v[k] == Coord(baseX + k / 16, baseY + k % 16, start.z)
        invariant forall k :: 0 <= k < |v| ==> Before(v[k], iterc)
        invariant Ascending(v)
      {
        assert (16 * xi + yi) / 16 == xi && (16 * xi + yi) % 16 == yi;
        v := v + [iterc];
        iterc := iterc.(y := iterc.y + 1);
        yi := yi + 1;
      }
      iterc := iterc.(y := starty);
      iterc := iterc.(x := iterc.x + 1);
      xi := xi + 1;
    }
    forall c | InBox(c, Coord(baseX, baseY, start.z), 16, 16, 1) ensures c in v {
      var k := 16 * (c.x - baseX) + (c.y - baseY);
      assert k / 16 == c.x - baseX && k % 16 == c.y - baseY;
      assert v[k] == c;
    }
    if start.x >= 0 && start.y >= 0 {
      assert InBox(start, Coord(baseX, baseY, start.z), 16, 16, 1);
    }
  }

  // ---------------------------------------------------------------------
  // ColumnBrush

  /** One step up from `c`. */
  function Above(c: Coord): Coord
  {
    c.(z := c.z + 1)
  }

  /** The valid coordinates at or above the level of `c`: a bound on the upward walk. */
  ghost function ValidFrom(mc: MapCache, c: Coord): set<Coord>
  {
    set d | d in mc.valid && d.z >= c.z
  }

  lemma ProperSubsetSmaller<T>(a: set<T>, b: set<T>)
    requires a < b
    ensures |a| < |b|
  {
    assert !(b <= a);
    var x :| x in b && x !in a;
    assert b == a + (b - a);
    assert |b - a| >= |{x}| by { assert {x} <= b - a; }
  }

  /**
   * ColumnBrush: walks up from `start` through valid tiles. The first tile
   * qualifies when it is low- or high-passable, every later one only when it
   * is low-passable; the walk stops at the first tile that does not qualify.
   */
  method ColumnPoints(mc: MapCache, start: Coord) returns (v: seq<Coord>)
    ensures forall k :: 0 <= k < |v| ==>
      v[k] == Coord(start.x, start.y, start.z + k) && TestCoord(mc, v[k])
    ensures |v| > 0 ==>
      LowPassable(mc.tiletypeAt(v[0])) || HighPassable(mc.tiletypeAt(v[0]))
    ensures forall k :: 1 <= k < |v| ==> LowPassable(mc.tiletypeAt(v[k]))
    ensures var next := Coord(start.x, start.y, start.z + |v|);
      || !TestCoord(mc, next)
      || !(LowPassable(mc.tiletypeAt(next)) || (|v| == 0 && HighPassable(mc.tiletypeAt(next))))
  {
    v := [];
    var cur := start;
    var juststarted := true;
    while TestCoord(mc, cur)
      invariant cur == Coord(start.x, start.y, start.z + |v|)
      invariant juststarted <==> |v| == 0
      invariant forall k :: 0 <= k < |v| ==>
        v[k] == Coord(start.x, start.y, start.z + k) && TestCoord(mc, v[k])
      invariant |v| > 0 ==>
        LowPassable(mc.tiletypeAt(v[0])) || HighPassable(mc.tiletypeAt(v[0]))
      invariant forall k :: 1 <= k < |v| ==> LowPassable(mc.tiletypeAt(v[k]))
      decreases |ValidFrom(mc, cur)|
    {
      var tt := mc.tiletypeAt(cur);
      if LowPassable(tt) || (juststarted && HighPassable(tt)) {
        v := v + [cur];
        juststarted := false;
        ghost var before := ValidFrom(mc, cur);
        cur := Above(cur);
        assert v[|v| - 1] in before - ValidFrom(mc, cur);
        ProperSubsetSmaller(ValidFrom(mc, cur), before);
      } else {
        break;
      }
    }
  }

  // ---------------------------------------------------------------------
  // FloodBrush

  /** A tile the flood brush collects: some liquid, and that liquid is water. */
  predicate Floodable(mc: MapCache, c: Coord)
  {
    mc.designationAt(c).flowSize != 0 && mc.designationAt(c).liquidType == Water
  }

  /**
   * The candidates the flood brush considers from `a`: the four horizontal
   * neighbours always, the tile below when `a` is low-passable and the tile
   * above when it is high-passable.
   */
  predicate Step(mc: MapCache, a: Coord, b: Coord)
  {
    || b == Coord(a.x - 1, a.y, a.z) || b == Coord(a.x + 1, a.y, a.z)
    || b == Coord(a.x, a.y - 1, a.z) || b == Coord(a.x, a.y + 1, a.z)
    || (LowPassable(mc.tiletypeAt(a)) && b == Coord(a.x, a.y, a.z - 1))
    || (HighPassable(mc.tiletypeAt(a)) && b == Coord(a.x, a.y, a.z + 1))
  }

  /** `maybeFlood`: pushes `c` onto the work stack (top last) exactly when it is valid. */
  method MaybeFlood(c: Coord, toFlood: seq<Coord>, mc: MapCache) returns (r: seq<Coord>)
    ensures r == PushIfValid(mc, c, toFlood)
  {
    r := toFlood;
    if TestCoord(mc, c) {
      r := r + [c];
    }
  }

  /** The stack after one `maybeFlood` call: `c` pushed on top when it is valid. */
  function PushIfValid(mc: MapCache, c: Coord, toFlood: seq<Coord>): seq<Coord>
  {
    if TestCoord(mc, c) then toFlood + [c] else toFlood
  }

  /** One push keeps the stack underneath and adds `c` exactly when it is valid. */
  lemma PushIfValidKeeps(mc: MapCache, c: Coord, toFlood: seq<Coord>)
    ensures var r := PushIfValid(mc, c, toFlood);
      && |toFlood| <= |r| <= |toFlood| + 1
      && r[..|toFlood|] == toFlood
      && forall n :: n in r <==> n in toFlood || (n == c && TestCoord(mc, c))
  {
  }

  /** The stack after processing a collected tile `xy`: its candidates pushed in the brush's order. */
  function PushedOnto(mc: MapCache, xy: Coord, toFlood: seq<Coord>): seq<Coord>
  {
    var s1 := PushIfValid(mc, Coord(xy.x - 1, xy.y, xy.z), toFlood);
    var s2 := PushIfValid(mc, Coord(xy.x + 1, xy.y, xy.z), s1);
    var s3 := PushIfValid(mc, Coord(xy.x, xy.y - 1, xy.z), s2);
    var s4 := PushIfValid(mc, Coord(xy.x, xy.y + 1, xy.z), s3);
    var s5 := if LowPassable(mc.tiletypeAt(xy)) then PushIfValid(mc, Coord(xy.x, xy.y, xy.z - 1), s4) else s4;
    if HighPassable(mc.tiletypeAt(xy)) then PushIfValid(mc, Coord(xy.x, xy.y, xy.z + 1), s5) else s5
  }

  /** Processing `xy` keeps the old stack underneath and pushes at most six tiles. */
  lemma PushedOntoKeeps(mc: MapCache, xy: Coord, toFlood: seq<Coord>)
    ensures var r := PushedOnto(mc, xy, toFlood);
      |toFlood| <= |r| <= |toFlood| + 6 && r[..|toFlood|] == toFlood
  {
    var s1 := PushIfValid(mc, Coord(xy.x - 1, xy.y, xy.z), toFlood);
    var s2 := PushIfValid(mc, Coord(xy.x + 1, xy.y, xy.z), s1);
    var s3 := PushIfValid(mc, Coord(xy.x, xy.y - 1, xy.z), s2);
    var s4 := PushIfValid(mc, Coord(xy.x, xy.y + 1, xy.z), s3);
    var s5 := if LowPassable(mc.tiletypeAt(xy)) then PushIfValid(mc, Coord(xy.x, xy.y, xy.z - 1), s4) else s4;
    var r := if HighPassable(mc.tiletypeAt(xy)) then PushIfValid(mc, Coord(xy.x, xy.y, xy.z + 1), s5) else s5;
    PushIfValidKeeps(mc, Coord(xy.x - 1, xy.y, xy.z), toFlood);
    PushIfValidKeeps(mc, Coord(xy.x + 1, xy.y, xy.z), s1);
    PushIfValidKeeps(mc, Coord(xy.x, xy.y - 1, xy.z), s2);
    PushIfValidKeeps(mc, Coord(xy.x, xy.y + 1, xy.z), s3);
    PushIfValidKeeps(mc, Coord(xy.x, xy.y, xy.z - 1), s4);
    PushIfValidKeeps(mc, Coord(xy.x, xy.y, xy.z + 1), s5);
    PrefixTrans(r, s5, s4);
    PrefixTrans(r, s4, s3);
    PrefixTrans(r, s3, s2);
    PrefixTrans(r, s2, s1);
    PrefixTrans(r, s1, toFlood);
  }

  lemma PrefixTrans<T>(a: seq<T>, b: seq<T>, c: seq<T>)
    requires |b| <= |a| && a[..|b|] == b && |c| <= |b| && b[..|c|] == c
    ensures a[..|c|] == c
  {
    assert a[..|c|] == a[..|b|][..|c|];
  }

  /** What processing `xy` adds to the stack are exactly the valid step neighbours of `xy`. */
  lemma PushedOntoMembers(mc: MapCache, xy: Coord, toFlood: seq<Coord>)
    ensures forall n :: n in PushedOnto(mc, xy, toFlood) <==> n in toFlood || (Step(mc, xy, n) && TestCoord(mc, n))
  {
    var s1 := PushIfValid(mc, Coord(xy.x - 1, xy.y, xy.z), toFlood);
    var s2 := PushIfValid(mc, Coord(xy.x + 1, xy.y, xy.z), s1);
    var s3 := PushIfValid(mc, Coord(xy.x, xy.y - 1, xy.z), s2);
    var s4 := PushIfValid(mc, Coord(xy.x, xy.y + 1, xy.z), s3);
    var s5 := if LowPassable(mc.tiletypeAt(xy)) then PushIfValid(mc, Coord(xy.x, xy.y, xy.z - 1), s4) else s4;
    PushIfValidKeeps(mc, Coord(xy.x - 1, xy.y, xy.z), toFlood);
    PushIfValidKeeps(mc, Coord(xy.x + 1, xy.y, xy.z), s1);
    PushIfValidKeeps(mc, Coord(xy.x, xy.y - 1, xy.z), s2);
    PushIfValidKeeps(mc, Coord(xy.x, xy.y + 1, xy.z), s3);
    PushIfValidKeeps(mc, Coord(xy.x, xy.y, xy.z - 1), s4);
    PushIfValidKeeps(mc, Coord(xy.x, xy.y, xy.z + 1), s5);
  }

  /** Tile `k` of `v` is one step from an earlier tile of `v`. */
  ghost predicate FromEarlier(mc: MapCache, v: seq<Coord>, k: int)
    requires 0 <= k < |v|
  {
    exists j :: 0 <= j < k && Step(mc, v[j], v[k])
  }

  /** `s` is one step from some tile of `v`. */
  ghost predicate StepFrom(mc: MapCache, v: seq<Coord>, s: Coord)
  {
    exists j :: 0 <= j < |v| && Step(mc, v[j], s)
  }

  /** The tiles collected so far form the start tile followed by tiles each reached from an earlier one. */
  ghost predicate Traced(mc: MapCache, start: Coord, v: seq<Coord>)
  {
    && (forall i, j :: 0 <= i < j < |v| ==> v[i] != v[j])
    && (forall k :: 0 <= k < |v| ==> Floodable(mc, v[k]))
    && (|v| > 0 ==> v[0] == start)
    && (forall k :: 0 < k < |v| ==> TestCoord(mc, v[k]))
    && (forall k {:trigger FromEarlier(mc, v, k)} :: 0 < k < |v| ==> FromEarlier(mc, v, k))
  }

  /** Every stacked tile lies in `area` and is the start tile or a valid step from a collected tile. */
  ghost predicate StackFrom(mc: MapCache, start: Coord, area: set<Coord>, v: seq<Coord>, toFlood: seq<Coord>)
  {
    forall s :: s in toFlood ==> s in area && (s == start || (TestCoord(mc, s) && StepFrom(mc, v, s)))
  }

  /** Every valid water tile one step from a collected tile is seen or still on the stack. */
  ghost predicate Frontier(mc: MapCache, v: seq<Coord>, seen: set<Coord>, toFlood: seq<Coord>)
  {
    forall k, n {:trigger Step(mc, v[k], n)} ::
      0 <= k < |v| && Step(mc, v[k], n) && TestCoord(mc, n) && Floodable(mc, n) ==>
        n in seen || n in toFlood
  }

  /** The state of the flood loop: collected tiles, the seen set and the work stack. */
  ghost predicate FloodInv(mc: MapCache, start: Coord, area: set<Coord>,
                           v: seq<Coord>, seen: set<Coord>, toFlood: seq<Coord>)
  {
    && (forall c :: c in seen <==> c in v)
    && seen <= area
    && Traced(mc, start, v)
    && (|v| == 0 ==> toFlood == [start] || (toFlood == [] && !Floodable(mc, start)))
    && StackFrom(mc, start, area, v, toFlood)
    && Frontier(mc, v, seen, toFlood)
  }

  /** Popping a tile that was seen already or holds no water changes nothing else. */
  lemma FloodDiscard(mc: MapCache, start: Coord, area: set<Coord>,
                     v: seq<Coord>, seen: set<Coord>, toFlood: seq<Coord>)
    requires FloodInv(mc, start, area, v, seen, toFlood) && toFlood != []
    requires var xy := toFlood[|toFlood| - 1]; xy in seen || !Floodable(mc, xy)
    ensures FloodInv(mc, start, area, v, seen, toFlood[..|toFlood| - 1])
  {
    var xy := toFlood[|toFlood| - 1];
    var rest := toFlood[..|toFlood| - 1];
    assert toFlood == rest + [xy];
    if |v| == 0 {
      assert toFlood == [start] && rest == [];
    }
    forall k, n | 0 <= k < |v| && Step(mc, v[k], n) && TestCoord(mc, n) && Floodable(mc, n)
      ensures n in seen || n in rest
    {
      if n !in seen && n != xy {
        assert n in toFlood;
      }
    }
  }

  /** Appending a valid water tile `xy` reached from `v` keeps `v` traced. */
  lemma TracedAppend(mc: MapCache, start: Coord, v: seq<Coord>, xy: Coord)
    requires Traced(mc, start, v) && xy !in v && Floodable(mc, xy)
    requires |v| == 0 ==> xy == start
    requires |v| > 0 ==> TestCoord(mc, xy) && StepFrom(mc, v, xy)
    ensures Traced(mc, start, v + [xy])
  {
    var v' := v + [xy];
    forall k | 0 < k < |v'| ensures FromEarlier(mc, v', k) {
      if k < |v| {
        assert FromEarlier(mc, v, k);
        var j :| 0 <= j < k && Step(mc, v[j], v[k]);
        assert v'[j] == v[j] && v'[k] == v[k];
      } else {
        var j :| 0 <= j < |v| && Step(mc, v[j], xy);
        assert v'[j] == v[j];
      }
    }
    forall i, j | 0 <= i < j < |v'| ensures v'[i] != v'[j] {
      if j == |v| {
        assert v'[i] == v[i];
      }
    }
  }

  /** After collecting `xy`, the rest of the stack plus what `xy` pushes still comes from collected tiles. */
  lemma StackFromCollect(mc: MapCache, start: Coord, area: set<Coord>, v: seq<Coord>,
                         rest: seq<Coord>, xy: Coord)
    requires StackFrom(mc, start, area, v, rest) && mc.valid <= area
    ensures StackFrom(mc, start, area, v + [xy], PushedOnto(mc, xy, rest))
  {
    var v' := v + [xy];
    PushedOntoMembers(mc, xy, rest);
    forall s | s in PushedOnto(mc, xy, rest) ensures s in area && (s == start || (TestCoord(mc, s) && StepFrom(mc, v', s))) {
      if s in rest {
        if s != start {
          var j :| 0 <= j < |v| && Step(mc, v[j], s);
          assert v'[j] == v[j];
        }
      } else {
        assert Step(mc, v'[|v|], s);
      }
    }
  }

  /** After collecting `xy`, its valid water neighbours are on the stack. */
  lemma FrontierCollect(mc: MapCache, v: seq<Coord>, seen: set<Coord>, rest: seq<Coord>, xy: Coord)
    requires Frontier(mc, v, seen, rest + [xy])
    ensures Frontier(mc, v + [xy], seen + {xy}, PushedOnto(mc, xy, rest))
  {
    var v' := v + [xy];
    PushedOntoMembers(mc, xy, rest);
    forall k, n | 0 <= k < |v'| && Step(mc, v'[k], n) && TestCoord(mc, n) && Floodable(mc, n)
      ensures n in seen + {xy} || n in PushedOnto(mc, xy, rest)
    {
      if k == |v| {
        assert n in PushedOnto(mc, xy, rest);
      } else {
        assert v'[k] == v[k];
        assert n in seen || n in rest + [xy];
      }
    }
  }

  /** Popping a new water tile collects it and pushes its valid step neighbours. */
  lemma FloodCollect(mc: MapCache, start: Coord, area: set<Coord>,
                     v: seq<Coord>, seen: set<Coord>, toFlood: seq<Coord>)
    requires FloodInv(mc, start, area, v, seen, toFlood) && toFlood != []
    requires var xy := toFlood[|toFlood| - 1]; xy !in seen && Floodable(mc, xy)
    requires mc.valid <= area
    ensures var xy := toFlood[|toFlood| - 1];
      FloodInv(mc, start, area, v + [xy], seen + {xy}, PushedOnto(mc, xy, toFlood[..|toFlood| - 1]))
  {
    var xy := toFlood[|toFlood| - 1];
    var rest := toFlood[..|toFlood| - 1];
    assert toFlood == rest + [xy];
    assert xy in toFlood;
    if |v| > 0 {
      assert xy != start by { assert v[0] in seen; }
      assert xy in area && TestCoord(mc, xy) && StepFrom(mc, v, xy);
    } else {
      assert xy == start;
    }
    TracedAppend(mc, start, v, xy);
    StackFromCollect(mc, start, area, v, rest, xy);
    FrontierCollect(mc, v, seen, rest, xy);
  }

  /** With the stack empty, the collected tiles have every property the flood brush promises. */
  lemma FloodDone(mc: MapCache, start: Coord, area: set<Coord>, v: seq<Coord>, seen: set<Coord>)
    requires FloodInv(mc, start, area, v, seen, [])
    ensures forall i, j :: 0 <= i < j < |v| ==> v[i] != v[j]
    ensures forall k :: 0 <= k < |v| ==> Floodable(mc, v[k])
    ensures !Floodable(mc, start) ==> v == []
    ensures Floodable(mc, start) ==> |v| > 0 && v[0] == start
    ensures forall k :: 0 < k < |v| ==>
      TestCoord(mc, v[k]) && exists j :: 0 <= j < k && Step(mc, v[j], v[k])
    ensures forall k, n :: 0 <= k < |v| && Step(mc, v[k], n) && TestCoord(mc, n) && Floodable(mc, n) ==> n in v
  {
    forall k | 0 < k < |v| ensures exists j :: 0 <= j < k && Step(mc, v[j], v[k]) {
      assert FromEarlier(mc, v, k);
    }
  }

  lemma RemoveOneSmaller<T>(a: set<T>, seen: set<T>, x: T)
    requires x in a && x !in seen
    ensures |a - (seen + {x})| < |a - seen|
  {
    ProperSubsetSmaller(a - (seen + {x}), a - seen);
  }

  /** The six `maybeFlood` calls the flood brush makes for a collected tile `xy`. */
  method PushCandidates(mc: MapCache, xy: Coord, stack: seq<Coord>) returns (toFlood: seq<Coord>)
    ensures toFlood == PushedOnto(mc, xy, stack)
    ensures |stack| <= |toFlood| <= |stack| + 6 && toFlood[..|stack|] == stack
    ensures forall n :: n in toFlood <==> n in stack || (Step(mc, xy, n) && TestCoord(mc, n))
  {
    toFlood := stack;
    toFlood := MaybeFlood(Coord(xy.x - 1, xy.y, xy.z), toFlood, mc);
    toFlood := MaybeFlood(Coord(xy.x + 1, xy.y, xy.z), toFlood, mc);
    toFlood := MaybeFlood(Coord(xy.x, xy.y - 1, xy.z), toFlood, mc);
    toFlood := MaybeFlood(Coord(xy.x, xy.y + 1, xy.z), toFlood, mc);
    ghost var s4 := toFlood;
    var tt := mc.tiletypeAt(xy);
    if LowPassable(tt) {
      toFlood := MaybeFlood(Coord(xy.x, xy.y, xy.z - 1), toFlood, mc);
    }
    assert toFlood == if LowPassable(tt) then PushIfValid(mc, Coord(xy.x, xy.y, xy.z - 1), s4) else s4;
    ghost var s5 := toFlood;
    if HighPassable(tt) {
      toFlood := MaybeFlood(Coord(xy.x, xy.y, xy.z + 1), toFlood, mc);
    }
    assert toFlood == if HighPassable(tt) then PushIfValid(mc, Coord(xy.x, xy.y, xy.z + 1), s5) else s5;
    assert toFlood == PushedOnto(mc, xy, stack);
    PushedOntoKeeps(mc, xy, stack);
    PushedOntoMembers(mc, xy, stack);
  }

  /**
   * FloodBrush: a depth-first flood fill from `start` over water tiles. The
   * result holds no coordinate twice, only water tiles, begins at `start`,
   * reaches every later tile by a step from an earlier one, and is closed:
   * every valid water tile one step away from a result tile is in the result.
   */
  method FloodPoints(mc: MapCache, start: Coord) returns (v: seq<Coord>)
    ensures forall i, j :: 0 <= i < j < |v| ==> v[i] != v[j]
    ensures forall k :: 0 <= k < |v| ==> Floodable(mc, v[k])
    ensures !Floodable(mc, start) ==> v == []
    ensures Floodable(mc, start) ==> |v| > 0 && v[0] == start
    ensures forall k :: 0 < k < |v| ==>
      TestCoord(mc, v[k]) && exists j :: 0 <= j < k && Step(mc, v[j], v[k])
    ensures forall k, n :: 0 <= k < |v| && Step(mc, v[k], n) && TestCoord(mc, n) && Floodable(mc, n) ==> n in v
  {
    v := [];
    var toFlood := [start];
    var seen: set<Coord> := {};
    ghost var area := mc.valid + {start};
    while toFlood != []
      invariant FloodInv(mc, start, area, v, seen, toFlood)
      decreases |area - seen|, |toFlood|
    {
      var xy := toFlood[|toFlood| - 1];
      ghost var before := toFlood;
      toFlood := toFlood[..|toFlood| - 1];
      var des := mc.designationAt(xy);
      if xy !in seen && des.flowSize != 0 && des.liquidType == Water {
        ghost var v0, seen0 := v, seen;
        v := v + [xy];
        seen := seen + {xy};
        toFlood := PushCandidates(mc, xy, toFlood);
        FloodCollect(mc, start, area, v0, seen0, before);
        RemoveOneSmaller(area, seen0, xy);
      } else {
        FloodDiscard(mc, start, area, v, seen, before);
      }
    }
    FloodDone(mc, start, area, v, seen);
  }
}
