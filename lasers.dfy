/**
 * Laser culling and vertical motion, shared by the player's lasers (upwards)
 * and the aliens' lasers (downwards).
 */
module Lasers {
  import opened Geometry
  import opened Entities

  /** A player laser that has left through the top of the screen. */
  predicate PastTop(l: Laser) { l.pos.y < -10.0 }

  /** An alien laser that has left through the bottom of the screen. */
  predicate PastBottom(l: Laser) { l.pos.y > ScreenHeight }

  function Shifted(l: Laser, dy: real): Laser {
    l.(pos := l.pos.(y := l.pos.y + dy))
  }

  /** Moves every laser vertically by `dy`, in place, keeping order and everything else. */
  method ShiftAll(ls: seq<Laser>, dy: real) returns (moved: seq<Laser>)
    ensures |moved| == |ls|
    ensures forall k :: 0 <= k < |ls| ==> moved[k] == Shifted(ls[k], dy)
    ensures forall k :: 0 <= k < |ls| ==> moved[k].pos.y == ls[k].pos.y + dy && moved[k].pos.x == ls[k].pos.x
    ensures forall k :: 0 <= k < |ls| ==> moved[k].id == ls[k].id && moved[k].size == ls[k].size
  {
    moved := ls;
    var k := 0;
    while k < |moved|
      invariant 0 <= k <= |moved| == |ls|
      invariant forall i :: 0 <= i < k ==> moved[i] == Shifted(ls[i], dy)
      invariant forall i :: k <= i < |ls| ==> moved[i] == ls[i]
    {
      moved := moved[k := Shifted(moved[k], dy)];
      k := k + 1;
    }
  }
}
