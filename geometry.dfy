/**
 * Plane geometry of the game: positions and sizes as pairs of reals, and the
 * axis-aligned rectangle overlap test used for every collision.
 */
module Geometry {

  datatype Vec2 = Vec2(x: real, y: real) {
    function Plus(d: Vec2): Vec2 {
      Vec2(x + d.x, y + d.y)
    }
  }

  /** A rectangle given by its top-left corner and its size. */
  datatype Rect = Rect(pos: Vec2, size: Vec2)

  function Max(a: real, b: real): real { if a < b then b else a }

  function Min(a: real, b: real): real { if a < b then a else b }

  predicate PositiveSize(r: Rect) {
    r.size.x > 0.0 && r.size.y > 0.0
  }

  /**
   * Two rectangles overlap when their intersection has positive width and
   * positive height; rectangles that only touch along an edge do not.
   */
  predicate Overlap(a: Rect, b: Rect): (r: bool)
    // The intersection has positive area only when both rectangles do.
    ensures r ==> PositiveSize(a) && PositiveSize(b)
  {
    && Max(a.pos.x, b.pos.x) < Min(a.pos.x + a.size.x, b.pos.x + b.size.x)
    && Max(a.pos.y, b.pos.y) < Min(a.pos.y + a.size.y, b.pos.y + b.size.y)
  }

  lemma OverlapSymmetric(a: Rect, b: Rect)
    ensures Overlap(a, b) == Overlap(b, a)
  {
  }

  /** For rectangles of positive size, overlap is the usual strict AABB test. */
  lemma OverlapAsSeparation(a: Rect, b: Rect)
    requires PositiveSize(a) && PositiveSize(b)
    ensures Overlap(a, b) <==>
      && a.pos.x < b.pos.x + b.size.x && b.pos.x < a.pos.x + a.size.x
      && a.pos.y < b.pos.y + b.size.y && b.pos.y < a.pos.y + a.size.y
  {
  }

  /** Touching edges do not count as an overlap. */
  lemma TouchingDoNotOverlap(a: Rect, b: Rect)
    requires a.pos.x + a.size.x == b.pos.x || a.pos.y + a.size.y == b.pos.y
    ensures !Overlap(a, b)
  {
  }
}
