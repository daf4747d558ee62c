/**
 * Animation playback: advancing the frame counter on integer microsecond
 * timestamps, and the point at which a finished animation is removed.
 */
module Animations {
  import opened Entities

  /** The current frame has been shown for longer than its duration. */
  predicate Due(a: Animation, now: int) {
    now - a.musStart > a.musPerFrame
  }

  /** Advancing now would step past the last frame: the animation is marked for removal. */
  predicate Finished(a: Animation, now: int) {
    Due(a, now) && !(a.currentFrame + 1 < a.frames)
  }

  /** One frame of playback for one animation. */
  function Advance(a: Animation, now: int): (r: Animation)
    // Position, sprite, frame count, duration and id never change.
    ensures r.(currentFrame := a.currentFrame, musStart := a.musStart) == a
    ensures !Due(a, now) ==> r == a
    ensures Due(a, now) ==> r.currentFrame == a.currentFrame + 1
    ensures Due(a, now) && !Finished(a, now) ==> r.musStart == now
    ensures Finished(a, now) ==> r.musStart == a.musStart
  {
    if Due(a, now) then
      var frame := a.currentFrame + 1;
      a.(currentFrame := frame, musStart := if frame < a.frames then now else a.musStart)
    else a
  }

  /** The ids the animation loop inserts into the removal set. */
  function FinishedIds(anims: seq<Animation>, now: int): set<int>
    decreases |anims|
  {
    if anims == [] then {}
    else
      var n := |anims| - 1;
      FinishedIds(anims[..n], now) + (if Finished(anims[n], now) then {anims[n].id} else {})
  }

  lemma {:induction false} FinishedIdsExactly(anims: seq<Animation>, now: int, x: int)
    ensures x in FinishedIds(anims, now) <==>
            exists k :: 0 <= k < |anims| && Finished(anims[k], now) && anims[k].id == x
    decreases |anims|
  {
    if anims != [] {
      var n := |anims| - 1;
      FinishedIdsExactly(anims[..n], now, x);
      if exists k :: 0 <= k < |anims| && Finished(anims[k], now) && anims[k].id == x {
        var k :| 0 <= k < |anims| && Finished(anims[k], now) && anims[k].id == x;
        if k < n { assert anims[..n][k] == anims[k]; }
      }
    }
  }

  /** An animation created at `now` is not advanced in the same update. */
  lemma FreshExplosionWaits(pos: Geometry.Vec2, now: int, id: int)
    ensures !Due(Explosion(pos, now, id), now)
  {
  }

  datatype Removal = Never | InUpdate(index: nat)

  /**
   * The life of one animation over updates at times `nows`: the index of the
   * update that marks it for removal, if any. In every other update it is
   * advanced and kept.
   */
  function RemovalOf(a: Animation, nows: seq<int>): Removal
    decreases |nows|
  {
    if nows == [] then Never
    else if Finished(a, nows[0]) then InUpdate(0)
    else
      match RemovalOf(Advance(a, nows[0]), nows[1..])
      case Never => Never
      case InUpdate(k) => InUpdate(k + 1)
  }

  /** The animation after it has been advanced in each of the updates at times `nows`. */
  function Played(a: Animation, nows: seq<int>): Animation
    decreases |nows|
  {
    if nows == [] then a else Played(Advance(a, nows[0]), nows[1..])
  }

  /**
   * Whatever the update times, an animation is marked for removal in the
   * update that is due while it shows its last frame, and in no earlier one:
   * it has then been advanced once per earlier due update, from its current
   * frame to its last.
   */
  lemma {:induction false} RemovedOnLastFrame(a: Animation, nows: seq<int>, k: nat)
    requires 0 <= a.currentFrame < a.frames
    requires RemovalOf(a, nows) == InUpdate(k)
    ensures k < |nows|
    ensures Played(a, nows[..k]).currentFrame == a.frames - 1
    ensures Due(Played(a, nows[..k]), nows[k])
    ensures forall m :: 0 <= m < k ==> !Finished(Played(a, nows[..m]), nows[m])
    decreases |nows|
  {
    assert nows[..0] == [];
    if !Finished(a, nows[0]) {
      var b := Advance(a, nows[0]);
      var rest := nows[1..];
      RemovedOnLastFrame(b, rest, k - 1);
      forall m | 0 <= m <= k ensures Played(a, nows[..m]) == if m == 0 then a else Played(b, rest[..m - 1]) {
        if m > 0 {
          assert nows[..m][1..] == rest[..m - 1];
        }
      }
      forall m | 0 <= m < k ensures !Finished(Played(a, nows[..m]), nows[m]) {
        if m > 0 {
          assert nows[m] == rest[m - 1];
        }
      }
      assert nows[k] == rest[k - 1];
    }
  }

  /** How many of the updates at times `nows` find the animation due, as it is played. */
  function DueCount(a: Animation, nows: seq<int>): nat
    decreases |nows|
  {
    if nows == [] then 0
    else (if Due(a, nows[0]) then 1 else 0) + DueCount(Advance(a, nows[0]), nows[1..])
  }

  /** Each due update advances the frame by one, and no other update moves it. */
  lemma {:induction false} PlayedCountsDue(a: Animation, nows: seq<int>)
    ensures Played(a, nows).currentFrame == a.currentFrame + DueCount(a, nows)
    decreases |nows|
  {
    if nows != [] {
      PlayedCountsDue(Advance(a, nows[0]), nows[1..]);
    }
  }

  /**
   * Conversely, whatever the update times, an animation that reaches its last
   * frame before update k, and is due in update k, is marked for removal in
   * update k.
   */
  lemma {:induction false} RemovedAtLastDue(a: Animation, nows: seq<int>, k: nat)
    requires 0 <= a.currentFrame < a.frames && k < |nows|
    requires Played(a, nows[..k]).currentFrame == a.frames - 1
    requires Due(Played(a, nows[..k]), nows[k])
    ensures RemovalOf(a, nows) == InUpdate(k)
    decreases k
  {
    if k > 0 {
      var b := Advance(a, nows[0]);
      var rest := nows[1..];
      assert nows[..k][1..] == rest[..k - 1];
      assert Played(a, nows[..k]) == Played(b, rest[..k - 1]);
      assert nows[k] == rest[k - 1];
      PlayedCountsDue(b, rest[..k - 1]);
      RemovedAtLastDue(b, rest, k - 1);
    }
  }

  /**
   * A collision explosion, whatever the update times, is marked for removal
   * exactly in its fourth due update: the due update with three due updates
   * before it.
   */
  lemma ExplosionRemovedOnFourthDueUpdate(pos: Geometry.Vec2, start: int, id: int, nows: seq<int>, k: nat)
    ensures RemovalOf(Explosion(pos, start, id), nows) == InUpdate(k) <==>
            && k < |nows|
            && DueCount(Explosion(pos, start, id), nows[..k]) == 3
            && Due(Played(Explosion(pos, start, id), nows[..k]), nows[k])
  {
    var e := Explosion(pos, start, id);
    if RemovalOf(e, nows) == InUpdate(k) {
      RemovedOnLastFrame(e, nows, k);
      PlayedCountsDue(e, nows[..k]);
    }
    if k < |nows| && DueCount(e, nows[..k]) == 3 && Due(Played(e, nows[..k]), nows[k]) {
      PlayedCountsDue(e, nows[..k]);
      RemovedAtLastDue(e, nows, k);
    }
  }

  /** Consecutive update times more than `gap` microseconds apart. */
  predicate Spaced(nows: seq<int>, gap: int)
    decreases |nows|
  {
    |nows| < 2 || (nows[1] - nows[0] > gap && Spaced(nows[1..], gap))
  }

  /**
   * If every update is due, an animation showing frame c of n frames is
   * advanced n - c - 1 times, and marked for removal in the update after
   * those.
   */
  lemma {:induction false} PlaysRemainingFrames(a: Animation, nows: seq<int>)
    requires 0 <= a.currentFrame < a.frames
    requires |nows| >= a.frames - a.currentFrame
    requires Due(a, nows[0]) && Spaced(nows, a.musPerFrame)
    ensures RemovalOf(a, nows) == InUpdate(a.frames - a.currentFrame - 1)
    decreases a.frames - a.currentFrame
  {
    if a.currentFrame + 1 < a.frames {
      var b := Advance(a, nows[0]);
      assert b.currentFrame == a.currentFrame + 1 && b.musStart == nows[0];
      PlaysRemainingFrames(b, nows[1..]);
    }
  }

  /**
   * A collision explosion, updated every 100001 microseconds or more slowly,
   * is marked for removal in the fourth update after it is created: its
   * fourth advance.
   */
  lemma ExplosionRemovedOnFourthAdvance(pos: Geometry.Vec2, start: int, id: int, nows: seq<int>)
    requires |nows| >= 4
    requires nows[0] - start > 100000 && Spaced(nows, 100000)
    ensures RemovalOf(Explosion(pos, start, id), nows) == InUpdate(3)
  {
    PlaysRemainingFrames(Explosion(pos, start, id), nows);
  }
}
