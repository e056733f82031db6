/** Three-dimensional ids laid out in a row, x running fastest. */
module Coordinates {

  import opened Arithmetic

  datatype Point = Point(x: nat, y: nat, z: nat)

  /** The number of pieces of size `s` that cover `g`, as the code computes it for g > 0. */
  function Pieces(g: nat, s: nat): nat
    requires g > 0 && s > 0
  {
    (g - 1) / s + 1
  }

  lemma PieceStarts(g: nat, s: nat, i: nat)
    requires g > 0 && s > 0
    ensures i < Pieces(g, s) <==> i * s < g
  {
    Quotient(g - 1, s);
    if i < Pieces(g, s) {
      Times(i, (g - 1) / s, s);
    } else {
      Times((g - 1) / s + 1, i, s);
    }
  }

  function Flat(p: Point, dimX: nat, dimY: nat): nat {
    p.z * dimX * dimY + p.y * dimX + p.x
  }

  function PointAt(i: nat, dimX: nat, dimY: nat): Point
    requires dimX > 0 && dimY > 0
  {
    Positive(i, dimX);
    Positive(i / dimX, dimY);
    Point(i % dimX, i / dimX % dimY, i / dimX / dimY)
  }

  predicate Inside(p: Point, dimX: nat, dimY: nat, dimZ: nat) {
    p.x < dimX && p.y < dimY && p.z < dimZ
  }

  lemma Positive(a: nat, b: nat)
    requires b > 0
    ensures a / b >= 0
  {
    Quotient(a, b);
    if a / b < 0 { Times(a / b, -1, b); }
  }

  lemma Nested(p: Point, dimX: nat, dimY: nat)
    ensures Flat(p, dimX, dimY) == (p.z * dimY + p.y) * dimX + p.x
  {
    assert p.z * dimX * dimY == p.z * dimY * dimX;
  }

  /** Points and their numbers are one to one. */
  lemma PointOfFlat(p: Point, dimX: nat, dimY: nat)
    requires p.x < dimX && p.y < dimY
    ensures PointAt(Flat(p, dimX, dimY), dimX, dimY) == p
  {
    Nested(p, dimX, dimY);
    DivUnique(Flat(p, dimX, dimY), dimX, p.z * dimY + p.y, p.x);
    DivUnique(p.z * dimY + p.y, dimY, p.z, p.y);
  }

  lemma FlatOfPoint(i: nat, dimX: nat, dimY: nat)
    requires dimX > 0 && dimY > 0
    ensures Flat(PointAt(i, dimX, dimY), dimX, dimY) == i
    ensures PointAt(i, dimX, dimY).x < dimX && PointAt(i, dimX, dimY).y < dimY
  {
    var p := PointAt(i, dimX, dimY);
    Nested(p, dimX, dimY);
    Quotient(i, dimX);
    Quotient(i / dimX, dimY);
  }

  function Volume(dimX: nat, dimY: nat, dimZ: nat): nat {
    dimX * dimY * dimZ
  }

  lemma VolumeIs(dimX: nat, dimY: nat, dimZ: nat)
    ensures Volume(dimX, dimY, dimZ) == (dimZ * dimY) * dimX
  {}

  /** Whatever stands in an earlier row comes before. */
  lemma RowOrder(row: nat, other: nat, width: nat, x: nat, y: nat)
    requires row < other && x < width
    ensures row * width + x < other * width + y
  {
    Times(row + 1, other, width);
  }

  /** A point is inside the box exactly when its number is below the volume. */
  lemma InsideBelow(p: Point, dimX: nat, dimY: nat, dimZ: nat)
    requires p.x < dimX && p.y < dimY
    ensures p.z < dimZ <==> Flat(p, dimX, dimY) < Volume(dimX, dimY, dimZ)
  {
    hide Flat, Volume;
    Nested(p, dimX, dimY);
    VolumeIs(dimX, dimY, dimZ);
    if p.z < dimZ {
      RowOrder(p.z, dimZ, dimY, p.y, 0);
      RowOrder(p.z * dimY + p.y, dimZ * dimY, dimX, p.x, 0);
    } else {
      Times(dimZ, p.z, dimY);
      Times(dimZ * dimY, p.z * dimY + p.y, dimX);
    }
  }

  /** The last point of a row, and of a plane, is followed by the first of the next. */
  lemma Follows(p: Point, dimX: nat, dimY: nat)
    requires p.x < dimX && p.y < dimY
    ensures Flat(Point(p.x + 1, p.y, p.z), dimX, dimY) == Flat(p, dimX, dimY) + 1
    ensures p.x + 1 == dimX ==> Flat(Point(0, p.y + 1, p.z), dimX, dimY) == Flat(p, dimX, dimY) + 1
    ensures p.x + 1 == dimX && p.y + 1 == dimY ==> Flat(Point(0, 0, p.z + 1), dimX, dimY) == Flat(p, dimX, dimY) + 1
  {
    Nested(p, dimX, dimY);
    Nested(Point(0, p.y + 1, p.z), dimX, dimY);
    Nested(Point(0, 0, p.z + 1), dimX, dimY);
    assert (p.z * dimY + p.y + 1) * dimX == (p.z * dimY + p.y) * dimX + dimX;
    assert (p.z + 1) * dimY == p.z * dimY + dimY;
  }

  /** The order of the numbers is the order by z, then y, then x. */
  lemma SmallerPoint(p: Point, q: Point, dimX: nat, dimY: nat)
    requires p.x < dimX && p.y < dimY && q.x < dimX && q.y < dimY
    requires p.z < q.z || (p.z == q.z && (p.y < q.y || (p.y == q.y && p.x < q.x)))
    ensures Flat(p, dimX, dimY) < Flat(q, dimX, dimY)
  {
    hide Flat;
    Nested(p, dimX, dimY);
    Nested(q, dimX, dimY);
    if p.z < q.z {
      RowOrder(p.z, q.z, dimY, p.y, q.y);
    }
    if p.z < q.z || p.y < q.y {
      RowOrder(p.z * dimY + p.y, q.z * dimY + q.y, dimX, p.x, q.x);
    }
  }
}
