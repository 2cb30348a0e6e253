/**
 * Lattice geometry used by the volume sensor: grid cells, flooring of a world
 * position, the x/z "layer" of a cell relative to the origin, and the distance
 * tests of the flood-fill.
 *
 * Every distance the sensor computes is a square root (Vector3.Distance,
 * Vector2.Distance).  The model keeps the squared distance and compares it with
 * the squared threshold, taking the threshold's sign into account; the lemmas
 * RootExceeds and RootBelow show that this is exactly the comparison of the
 * square root with the threshold.
 */
module Geometry {

  /** A grid cell: a point of the integer lattice, in world units. */
  datatype Cell = Cell(x: int, y: int, z: int)

  /** A world position as the host reports it. */
  datatype Point = Point(x: real, y: real, z: real)

  /** The six unit vectors of Unity: right = +x, up = +y, forward = +z. */
  datatype Direction = Right | Left | Up | Down | Forward | Back

  function Abs(n: int): (r: nat)
    ensures r == n || r == -n
  {
    if n < 0 then -n else n
  }

  function Max(a: int, b: int): (r: int)
    ensures r >= a && r >= b && (r == a || r == b)
  {
    if a >= b then a else b
  }

  /** Component-wise floor of a world position (`floor`). */
  function Floor(p: Point): (c: Cell)
    ensures c.x as real <= p.x < c.x as real + 1.0
    ensures c.y as real <= p.y < c.y as real + 1.0
    ensures c.z as real <= p.z < c.z as real + 1.0
  {
    Cell(p.x.Floor, p.y.Floor, p.z.Floor)
  }

  /**
   * `findLayer`: the x/z layer of `end` seen from `start`, one less than the
   * larger of the two horizontal offsets; the y offset plays no part.
   */
  function FindLayer(start: Cell, end: Cell): (layer: int)
    ensures end.x != start.x || end.z != start.z ==>
              layer == Max(Abs(end.x - start.x), Abs(end.z - start.z)) - 1
    ensures end.x == start.x && end.z == start.z ==> layer == 0
    ensures layer >= 0
  {
    var dx, dz := end.x - start.x, end.z - start.z;
    if Abs(dx) > 0 then
      if Abs(dx) > Abs(dz) then Abs(dx) - 1 else Abs(dz) - 1
    else if Abs(dz) > 0 then
      Abs(dz) - 1
    else
      0
  }

  function Sq(k: int): (r: real)
    ensures r >= 0.0
    ensures r == 0.0 <==> k == 0
  {
    (k as real) * (k as real)
  }

  /** Square of the Euclidean distance between two cells (Vector3.Distance). */
  function DistanceSquared(a: Cell, b: Cell): (d: real)
    ensures d >= 0.0
    ensures d == 0.0 <==> a == b
  {
    Sq(a.x - b.x) + Sq(a.y - b.y) + Sq(a.z - b.z)
  }

  /** Square of `vector3FlatDistance`: the distance of the x/z projections. */
  function FlatDistanceSquared(a: Cell, b: Cell): (d: real)
    ensures d >= 0.0
    ensures d == 0.0 <==> a.x == b.x && a.z == b.z
  {
    Sq(a.x - b.x) + Sq(a.z - b.z)
  }

  /** `Vector3.Distance(a, b) > t` */
  predicate DistanceExceeds(a: Cell, b: Cell, t: real)
  {
    t < 0.0 || DistanceSquared(a, b) > t * t
  }

  /** `vector3FlatDistance(a, b) < t` */
  predicate FlatDistanceBelow(a: Cell, b: Cell, t: real)
  {
    t > 0.0 && FlatDistanceSquared(a, b) < t * t
  }

  /** `vector3FlatDistance(a, b) > t` */
  predicate FlatDistanceExceeds(a: Cell, b: Cell, t: real)
  {
    t < 0.0 || FlatDistanceSquared(a, b) > t * t
  }

  lemma SquareMonotone(a: real, b: real)
    requires 0.0 <= a <= b
    ensures a * a <= b * b
  {
    var square := a * a;
    assert square <= a * b;
  }

  lemma SquareStrictMonotone(a: real, b: real)
    requires 0.0 <= a < b
    ensures a * a < b * b
  {
    var square := a * a;
    assert square <= a * b;
  }

  /**
   * For the non-negative square root `s` of `d`, `s > t` holds exactly when
   * the squared comparison used by DistanceExceeds and FlatDistanceExceeds does.
   */
  lemma RootExceeds(d: real, s: real, t: real)
    requires s >= 0.0 && s * s == d
    ensures s > t <==> (t < 0.0 || d > t * t)
  {
    if t >= 0.0 {
      if s > t {
        SquareStrictMonotone(t, s);
      } else {
        SquareMonotone(s, t);
      }
    }
  }

  /**
   * For the non-negative square root `s` of `d`, `s < t` holds exactly when
   * the squared comparison used by FlatDistanceBelow does.
   */
  lemma RootBelow(d: real, s: real, t: real)
    requires s >= 0.0 && s * s == d
    ensures s < t <==> (t > 0.0 && d < t * t)
  {
    if t > 0.0 {
      if s < t {
        SquareStrictMonotone(s, t);
      } else {
        SquareMonotone(t, s);
      }
    }
  }

  /** vector3FlatDistance is symmetric and ignores both y coordinates. */
  lemma FlatDistanceSymmetric(a: Cell, b: Cell, ya: int, yb: int)
    ensures FlatDistanceSquared(a, b) == FlatDistanceSquared(b, a)
    ensures FlatDistanceSquared(a, b) == FlatDistanceSquared(a.(y := ya), b.(y := yb))
  {
    assert Sq(a.x - b.x) == Sq(b.x - a.x);
    assert Sq(a.z - b.z) == Sq(b.z - a.z);
  }

  /** A larger threshold keeps every cell that a smaller one keeps. */
  lemma FlatDistanceBelowMonotone(a: Cell, b: Cell, t: real, t': real)
    requires t <= t' && FlatDistanceBelow(a, b, t)
    ensures FlatDistanceBelow(a, b, t')
  {
    SquareMonotone(t, t');
  }

  predicate IsVertical(d: Direction)
  {
    d == Up || d == Down
  }

  /** `cell + d * resolution` */
  function Offset(c: Cell, d: Direction, resolution: int): (n: Cell)
    ensures !IsVertical(d) ==> n.y == c.y
    ensures IsVertical(d) ==> n.x == c.x && n.z == c.z
  {
    match d
    case Right => Cell(c.x + resolution, c.y, c.z)
    case Left => Cell(c.x - resolution, c.y, c.z)
    case Up => Cell(c.x, c.y + resolution, c.z)
    case Down => Cell(c.x, c.y - resolution, c.z)
    case Forward => Cell(c.x, c.y, c.z + resolution)
    case Back => Cell(c.x, c.y, c.z - resolution)
  }

  /** Every neighbour lies at distance `resolution` from its cell. */
  lemma OffsetDistance(c: Cell, d: Direction, resolution: int)
    ensures DistanceSquared(Offset(c, d, resolution), c) == Sq(resolution)
  {
    assert Sq(-resolution) == Sq(resolution);
  }

  /** The direction array `r` of CreateNeighbors, in its order. */
  const AllDirections: seq<Direction> := [Right, Left, Up, Down, Forward, Back]

  /** The direction array `m` of CreateNeighbors, in its order. */
  const HorizontalDirections: seq<Direction> := [Right, Left, Forward, Back]

  /** The largest lattice offset a cell within distance `t` can have on one axis. */
  function Radius(t: real): nat
  {
    if t < 0.0 then 0 else t.Floor
  }

  /** The finite cube of cells around `o` with half-side `radius`. */
  function Box(o: Cell, radius: nat): set<Cell>
  {
    set x: int, y: int, z: int |
      o.x - radius <= x <= o.x + radius &&
      o.y - radius <= y <= o.y + radius &&
      o.z - radius <= z <= o.z + radius :: Cell(x, y, z)
  }

  lemma CoordinateWithin(k: int, t: real)
    requires t >= 0.0 && Sq(k) <= t * t
    ensures -(Radius(t) as int) <= k <= Radius(t)
  {
    var a := Abs(k);
    assert Sq(a) == Sq(k);
    if a > Radius(t) {
      assert a as real > t;
      SquareStrictMonotone(t, a as real);
      assert false;
    }
  }

  /** Every cell within distance `t` of `o` lies in the cube of half-side Radius(t). */
  lemma WithinDistanceInBox(c: Cell, o: Cell, t: real)
    requires !DistanceExceeds(c, o, t)
    ensures c in Box(o, Radius(t))
  {
    CoordinateWithin(c.x - o.x, t);
    CoordinateWithin(c.y - o.y, t);
    CoordinateWithin(c.z - o.z, t);
    assert Cell(c.x, c.y, c.z) in Box(o, Radius(t));
  }
}
