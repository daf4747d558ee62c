/**
 * The game state and the per-frame simulation step `Update`, split into one
 * method per step in the order the frame runs them, and the key handlers that
 * set the input flags between frames.
 */
module Game {
  import opened Geometry
  import opened Registry
  import opened Entities
  import opened Controls
  import opened Lasers
  import opened Swarm
  import opened Waves
  import opened Combat
  import opened Animations

  /** The largest x at which a ship of width `width` stays inside the right margin. */
  function RightLimit(width: real): real { ScreenWidth - width - Padding }

  predicate WithinMargins(x: real, width: real) { Padding <= x <= RightLimit(width) }

  /** Where a dead ship reappears: x is (312 - 12) / 2 in unsigned arithmetic. */
  function SpawnPoint(size: Vec2): Vec2 { Vec2(150.0, ScreenHeight - size.y - Padding) }

  /** The ids of the four registries, in registry order. */
  function AllIds(l: seq<Laser>, al: seq<Laser>, a: seq<Alien>, an: seq<Animation>): seq<int> {
    Ids(l, LaserId) + Ids(al, LaserId) + Ids(a, AlienId) + Ids(an, AnimationId)
  }

  /** The ids of the four registries are unique and below the counter. */
  ghost predicate Fresh(l: seq<Laser>, al: seq<Laser>, a: seq<Alien>, an: seq<Animation>, counter: int) {
    DistinctBelow(AllIds(l, al, a, an), counter)
  }

  /** `Fresh` is uniqueness of the registries' id multiset. */
  lemma FreshIsUnique(l: seq<Laser>, al: seq<Laser>, a: seq<Alien>, an: seq<Animation>, counter: int)
    ensures Fresh(l, al, a, an, counter) <==> UniqueBelow(multiset(AllIds(l, al, a, an)), counter)
  {
    DistinctBelowIsUnique(AllIds(l, al, a, an), counter);
  }

  /** Dropping entities from the registries, or changing them but not their ids, keeps the ids fresh. */
  lemma FreshAfterShrink(l: seq<Laser>, al: seq<Laser>, a: seq<Alien>, an: seq<Animation>,
                         l': seq<Laser>, al': seq<Laser>, a': seq<Alien>, an': seq<Animation>, counter: int)
    requires Fresh(l, al, a, an, counter)
    requires multiset(Ids(l', LaserId)) <= multiset(Ids(l, LaserId))
    requires multiset(Ids(al', LaserId)) <= multiset(Ids(al, LaserId))
    requires multiset(Ids(a', AlienId)) <= multiset(Ids(a, AlienId))
    requires multiset(Ids(an', AnimationId)) <= multiset(Ids(an, AnimationId))
    ensures Fresh(l', al', a', an', counter)
  {
    FreshIsUnique(l, al, a, an, counter);
    FreshIsUnique(l', al', a', an', counter);
    UniqueBelowSub(multiset(AllIds(l', al', a', an')), multiset(AllIds(l, al, a, an)), counter);
  }

  /*
   * Appending one entity whose id is the counter to one of the registries,
   * and advancing the counter, keeps the ids fresh. The primed parameters are
   * the registry and the counter after the push.
   */

  lemma PushLaser(l: seq<Laser>, al: seq<Laser>, a: seq<Alien>, an: seq<Animation>, counter: int,
                  x: Laser, l': seq<Laser>, counter': int)
    requires Fresh(l, al, a, an, counter)
    requires x.id == counter && l' == l + [x] && counter' == counter + 1
    ensures Fresh(l', al, a, an, counter')
  {
    IdsAppend(l, [x], LaserId);
    assert Ids([x], LaserId) == [counter];
    FreshIsUnique(l, al, a, an, counter);
    FreshIsUnique(l', al, a, an, counter');
    NextIdStaysUnique(multiset(AllIds(l, al, a, an)), counter);
    assert multiset(AllIds(l', al, a, an)) == multiset(AllIds(l, al, a, an)) + multiset{counter};
  }

  lemma PushAlienLaser(l: seq<Laser>, al: seq<Laser>, a: seq<Alien>, an: seq<Animation>, counter: int,
                       x: Laser, al': seq<Laser>, counter': int)
    requires Fresh(l, al, a, an, counter)
    requires x.id == counter && al' == al + [x] && counter' == counter + 1
    ensures Fresh(l, al', a, an, counter')
  {
    IdsAppend(al, [x], LaserId);
    assert Ids([x], LaserId) == [counter];
    FreshIsUnique(l, al, a, an, counter);
    FreshIsUnique(l, al', a, an, counter');
    NextIdStaysUnique(multiset(AllIds(l, al, a, an)), counter);
    assert multiset(AllIds(l, al', a, an)) == multiset(AllIds(l, al, a, an)) + multiset{counter};
  }

  lemma PushAlien(l: seq<Laser>, al: seq<Laser>, a: seq<Alien>, an: seq<Animation>, counter: int,
                  x: Alien, a': seq<Alien>, counter': int)
    requires Fresh(l, al, a, an, counter)
    requires x.id == counter && a' == a + [x] && counter' == counter + 1
    ensures Fresh(l, al, a', an, counter')
  {
    IdsAppend(a, [x], AlienId);
    assert Ids([x], AlienId) == [counter];
    FreshIsUnique(l, al, a, an, counter);
    FreshIsUnique(l, al, a', an, counter');
    NextIdStaysUnique(multiset(AllIds(l, al, a, an)), counter);
    assert multiset(AllIds(l, al, a', an)) == multiset(AllIds(l, al, a, an)) + multiset{counter};
  }

  lemma PushAnimation(l: seq<Laser>, al: seq<Laser>, a: seq<Alien>, an: seq<Animation>, counter: int,
                      x: Animation, an': seq<Animation>, counter': int)
    requires Fresh(l, al, a, an, counter)
    requires x.id == counter && an' == an + [x] && counter' == counter + 1
    ensures Fresh(l, al, a, an', counter')
  {
    IdsAppend(an, [x], AnimationId);
    assert Ids([x], AnimationId) == [counter];
    FreshIsUnique(l, al, a, an, counter);
    FreshIsUnique(l, al, a, an', counter');
    NextIdStaysUnique(multiset(AllIds(l, al, a, an)), counter);
    assert multiset(AllIds(l, al, a, an')) == multiset(AllIds(l, al, a, an)) + multiset{counter};
  }

  class State {
    var idCounter: int
    var level: int
    var ship: Ship
    var lives: int
    var input: Input
    var lasers: seq<Laser>
    var alienLasers: seq<Laser>
    var aliens: seq<Alien>
    var lastMove: Move
    var move: Move
    var animations: seq<Animation>

    /** The ids of every live registry entity. */
    ghost function LiveIds(): seq<int>
      reads this
    {
      AllIds(lasers, alienLasers, aliens, animations)
    }

    /** Live ids are unique and below the counter. */
    ghost predicate IdsFresh()
      reads this
    {
      Fresh(lasers, alienLasers, aliens, animations, idCounter)
    }

    /** An alive ship is inside the margins; a dead one is parked at the off-screen height. */
    ghost predicate ShipPlaced()
      reads this
    {
      && ship.size == ShipSize
      && (!ship.dead ==> WithinMargins(ship.pos.x, ship.size.x))
      && (ship.dead ==> ship.pos.y == Offscreen.y)
    }

    /** What holds between frames. */
    ghost predicate Valid()
      reads this
    {
      && IdsFresh()
      && ShipPlaced()
      && |lasers| <= MaxLasers
      && Horizontal(lastMove)
      && (input.shoot.press ==> input.shoot.hold)
      && level >= 1
      && |aliens| > 0
    }

    /** Every live entity has its own id, and every id is below the counter. */
    lemma LiveIdsDistinct()
      requires IdsFresh()
      ensures forall i, j :: 0 <= i < j < |LiveIds()| ==> LiveIds()[i] != LiveIds()[j]
      ensures forall i :: 0 <= i < |LiveIds()| ==> LiveIds()[i] < idCounter
    {
      FreshIsUnique(lasers, alienLasers, aliens, animations, idCounter);
      UniqueMeansDistinct(LiveIds(), idCounter);
    }

    /** Every alien's id is below the counter. */
    lemma AlienIdsBelow()
      requires IdsFresh()
      ensures forall j :: 0 <= j < |aliens| ==> aliens[j].id < idCounter
    {
      LiveIdsDistinct();
      var pre := Ids(lasers, LaserId) + Ids(alienLasers, LaserId);
      var upTo := pre + Ids(aliens, AlienId);
      assert LiveIds() == upTo + Ids(animations, AnimationId);
      forall j | 0 <= j < |aliens| ensures aliens[j].id < idCounter {
        assert upTo[|pre| + j] == aliens[j].id;
        assert LiveIds()[|pre| + j] == upTo[|pre| + j];
      }
    }

    // ----- Input -------------------------------------------------------------

    method KeyPressed(key: Key)
      requires Valid()
      modifies this`input
      ensures Valid()
      ensures input.left == if key in {A, LeftArrow} then old(input.left).(hold := true) else old(input.left)
      ensures input.right == if key in {D, RightArrow} then old(input.right).(hold := true) else old(input.right)
      // A Space key-down arms `press` only when Space was not already held.
      ensures input.shoot == if key == Space then Button(true, !old(input.shoot.hold)) else old(input.shoot)
    {
      match key {
        case A => input := input.(left := input.left.(hold := true));
        case LeftArrow => input := input.(left := input.left.(hold := true));
        case D => input := input.(right := input.right.(hold := true));
        case RightArrow => input := input.(right := input.right.(hold := true));
        case Space =>
          input := input.(shoot := input.shoot.(press := !input.shoot.hold));
          input := input.(shoot := input.shoot.(hold := true));
        case Z =>
        case OtherKey =>
      }
    }

    method KeyReleased(key: Key)
      requires Valid()
      modifies this`input
      ensures Valid()
      ensures input.left == if key in {A, LeftArrow} then old(input.left).(hold := false) else old(input.left)
      ensures input.right == if key in {D, RightArrow} then old(input.right).(hold := false) else old(input.right)
      // A Space key-up clears both flags.
      ensures input.shoot == if key == Space then Button(false, false) else old(input.shoot)
    {
      match key {
        case A => input := input.(left := input.left.(hold := false));
        case LeftArrow => input := input.(left := input.left.(hold := false));
        case D => input := input.(right := input.right.(hold := false));
        case RightArrow => input := input.(right := input.right.(hold := false));
        case Space =>
          input := input.(shoot := input.shoot.(hold := false));
          input := input.(shoot := input.shoot.(press := false));
        case Z =>
        case OtherKey =>
      }
    }

    // ----- The frame's steps ---------------------------------------------------

    /** Steering integrated over the frame time, then the clamp to the margins (dead or alive). */
    method MoveShip(delta: real)
      modifies this`ship
      ensures ship == old(ship).(pos := old(ship.pos).(x := ship.pos.x))
      ensures var raw := old(ship.pos.x) + ShipSpeed * Steer(input) as real * delta;
              && (raw < Padding ==> ship.pos.x == Padding)
              && (Padding <= raw <= RightLimit(ship.size.x) ==> ship.pos.x == raw)
              && (Padding <= raw && raw > RightLimit(ship.size.x) ==> ship.pos.x == RightLimit(ship.size.x))
      ensures ship.size.x <= ScreenWidth - 2.0 * Padding ==> WithinMargins(ship.pos.x, ship.size.x)
    {
      var x := ship.pos.x + ShipSpeed * Steer(input) as real * delta;
      if x < Padding {
        x := Padding;
      } else if x > RightLimit(ship.size.x) {
        x := RightLimit(ship.size.x);
      }
      ship := ship.(pos := ship.pos.(x := x));
    }

    /** A dead ship's respawn timer runs down; it revives once below zero, if lives remain. */
    method TickRespawn(delta: real)
      modifies this`ship
      ensures !old(ship.dead) ==> ship == old(ship)
      ensures old(ship.dead) ==>
        && ship.respawn == old(ship.respawn) - delta
        && ship.size == old(ship.size)
        && (ship.dead <==> !(ship.respawn < 0.0 && lives > 0))
        && ship.pos == if ship.dead then old(ship.pos) else SpawnPoint(ship.size)
    {
      if ship.dead {
        ship := ship.(respawn := ship.respawn - delta);
        if ship.respawn < 0.0 && lives > 0 {
          ship := ship.(pos := SpawnPoint(ship.size), dead := false);
        }
      }
    }

    /**
     * A laser is fired only on an armed press and below the cap; only then is
     * the press consumed.
     */
    method FireLaser()
      requires IdsFresh()
      modifies this`lasers, this`idCounter, this`input
      ensures IdsFresh()
      ensures var fired := old(input.shoot.press) && old(|lasers|) < MaxLasers;
        && lasers == old(lasers) + (if fired then [PlayerShot(ship.pos, old(idCounter))] else [])
        && idCounter == old(idCounter) + (if fired then 1 else 0)
        && input == if fired then old(input).(shoot := old(input.shoot).(press := false)) else old(input)
    {
      if input.shoot.press {
        if |lasers| < MaxLasers {
          ghost var before, c := lasers, idCounter;
          lasers := lasers + [PlayerShot(ship.pos, idCounter)];
          idCounter := idCounter + 1;
          PushLaser(before, alienLasers, aliens, animations, c, PlayerShot(ship.pos, c), lasers, idCounter);
          input := input.(shoot := input.shoot.(press := false));
        }
      }
    }

    /** Lasers above the top are erased; the rest move up. */
    method CullAndMoveLasers(delta: real)
      requires IdsFresh()
      modifies this`lasers
      ensures IdsFresh()
      ensures var kept := EraseIf(old(lasers), PastTop);
        && |lasers| == |kept|
        && forall k :: 0 <= k < |kept| ==> lasers[k] == Shifted(kept[k], -LaserSpeed * delta)
    {
      var kept := EraseIf(lasers, PastTop);
      var moved := ShiftAll(kept, -LaserSpeed * delta);
      IdsOfEraseIf(lasers, PastTop, LaserId);
      IdsPointwise(moved, kept, LaserId);
      FreshAfterShrink(lasers, alienLasers, aliens, animations, moved, alienLasers, aliens, animations, idCounter);
      lasers := moved;
    }

    /** The formation state machine, consulting the edge test only outside DOWN. */
    method StepFormation()
      modifies this`move, this`lastMove
      ensures Formation(move, lastMove) ==
              NextFormation(Formation(old(move), old(lastMove)), SomeAtEdge(aliens))
    {
      if move != Down {
        lastMove := move;
        var changeDir := AnyAtEdge(aliens);
        if changeDir {
          move := Down;
        }
      } else {
        move := if lastMove == Left then Right else Left;
      }
    }

    /** Every alien moves by the displacement of the current move. */
    method MoveSwarm()
      requires IdsFresh()
      modifies this`aliens
      ensures IdsFresh()
      ensures |aliens| == |old(aliens)|
      ensures forall k :: 0 <= k < |aliens| ==>
        aliens[k] == old(aliens[k]).(pos := old(aliens[k]).pos.Plus(Offset(move)))
    {
      var moved := DisplaceSwarm(aliens, move);
      IdsPointwise(moved, aliens, AlienId);
      FreshAfterShrink(lasers, alienLasers, aliens, animations, lasers, alienLasers, moved, animations, idCounter);
      aliens := moved;
    }

    /** Each alien, in swarm order, fires when its random decision says so. */
    method AliensShoot(shots: seq<bool>)
      requires IdsFresh() && |shots| == |aliens|
      modifies this`alienLasers, this`idCounter
      ensures IdsFresh()
      ensures alienLasers == old(alienLasers) + AlienShots(aliens, shots, old(idCounter))
      ensures idCounter == old(idCounter) + |AlienShots(aliens, shots, old(idCounter))|
    {
      var i := 0;
      while i < |aliens|
        invariant 0 <= i <= |aliens|
        invariant alienLasers == old(alienLasers) + AlienShots(aliens[..i], shots[..i], old(idCounter))
        invariant idCounter == old(idCounter) + |AlienShots(aliens[..i], shots[..i], old(idCounter))|
        invariant IdsFresh()
      {
        ghost var earlier := AlienShots(aliens[..i], shots[..i], old(idCounter));
        ghost var later := AlienShots(aliens[..i + 1], shots[..i + 1], old(idCounter));
        AlienShotsStep(aliens, shots, old(idCounter), i);
        if shots[i] {
          var shot := AlienShot(aliens[i].pos, idCounter);
          assert later == earlier + [shot];
          ghost var before, c := alienLasers, idCounter;
          assert before + [shot] == old(alienLasers) + later;
          alienLasers := alienLasers + [shot];
          idCounter := idCounter + 1;
          PushAlienLaser(lasers, before, aliens, animations, c, shot, alienLasers, idCounter);
        } else {
          assert later == earlier;
        }
        i := i + 1;
      }
      assert aliens[..i] == aliens && shots[..i] == shots;
    }

    /** Alien lasers below the bottom are erased; the rest move down. */
    method CullAndMoveAlienLasers(delta: real)
      requires IdsFresh()
      modifies this`alienLasers
      ensures IdsFresh()
      ensures var kept := EraseIf(old(alienLasers), PastBottom);
        && |alienLasers| == |kept|
        && forall k :: 0 <= k < |kept| ==> alienLasers[k] == Shifted(kept[k], LaserSpeed * delta)
    {
      var kept := EraseIf(alienLasers, PastBottom);
      var moved := ShiftAll(kept, LaserSpeed * delta);
      IdsOfEraseIf(alienLasers, PastBottom, LaserId);
      IdsPointwise(moved, kept, LaserId);
      FreshAfterShrink(lasers, alienLasers, aliens, animations, lasers, moved, aliens, animations, idCounter);
      alienLasers := moved;
    }

    /**
     * The inner loop over the swarm for player laser `laser`: one explosion per
     * alien it overlaps, and the ids of both for removal.
     */
    method ExplodeStruck(laser: Laser, now: int) returns (marks: set<int>)
      requires IdsFresh()
      modifies this`animations, this`idCounter
      ensures IdsFresh()
      ensures marks == PairMarks(laser, aliens)
      ensures animations == old(animations) + Explosions(StruckBy(laser, aliens), now, old(idCounter))
      ensures idCounter == old(idCounter) + |StruckBy(laser, aliens)|
    {
      marks := {};
      var j := 0;
      while j < |aliens|
        invariant 0 <= j <= |aliens|
        invariant marks == PairMarks(laser, aliens[..j])
        invariant animations == old(animations) + Explosions(StruckBy(laser, aliens[..j]), now, old(idCounter))
        invariant idCounter == old(idCounter) + |StruckBy(laser, aliens[..j])|
        invariant IdsFresh()
      {
        var alien := aliens[j];
        StruckByStep(laser, aliens, j);
        PairMarksStep(laser, aliens, j);
        ghost var struck := StruckBy(laser, aliens[..j]);
        if Overlap(LaserBox(laser), AlienBox(alien)) {
          var boom := Explosion(alien.pos, now, idCounter);
          ExplosionsSnoc(struck, alien, now, old(idCounter), idCounter);
          assert struck + [alien] == StruckBy(laser, aliens[..j + 1]);
          AppendAssoc(old(animations), Explosions(struck, now, old(idCounter)), [boom]);
          ghost var before, c := animations, idCounter;
          animations := animations + [boom];
          idCounter := idCounter + 1;
          PushAnimation(lasers, alienLasers, aliens, before, c, boom, animations, idCounter);
          marks := marks + {laser.id, alien.id};
        } else {
          assert struck == StruckBy(laser, aliens[..j + 1]);
        }
        j := j + 1;
      }
      assert aliens[..j] == aliens;
    }

    /** The inner loop over the alien lasers for player laser `laser`: the ids of both of every overlapping pair. */
    method InterceptsOf(laser: Laser) returns (marks: set<int>)
      ensures marks == InterceptMarks(laser, alienLasers)
    {
      marks := {};
      var k := 0;
      while k < |alienLasers|
        invariant 0 <= k <= |alienLasers|
        invariant marks == InterceptMarks(laser, alienLasers[..k])
      {
        var other := alienLasers[k];
        InterceptMarksStep(laser, alienLasers, k);
        if Overlap(LaserBox(laser), LaserBox(other)) {
          marks := marks + {laser.id, other.id};
        }
        k := k + 1;
      }
      assert alienLasers[..k] == alienLasers;
    }

    /**
     * Player lasers against the swarm and against the alien lasers, all on
     * this frame's positions: the ids to remove, and one explosion per
     * (laser, alien) overlap in loop order.
     */
    method ShootDown(now: int) returns (ids: set<int>)
      requires IdsFresh()
      modifies this`animations, this`idCounter
      ensures IdsFresh()
      ensures ids == ShotMarks(lasers, aliens, alienLasers)
      ensures animations == old(animations) + Explosions(AlienHits(lasers, aliens), now, old(idCounter))
      ensures idCounter == old(idCounter) + |AlienHits(lasers, aliens)|
    {
      ids := {};
      var i := 0;
      while i < |lasers|
        invariant 0 <= i <= |lasers|
        invariant ids == ShotMarks(lasers[..i], aliens, alienLasers)
        invariant animations == old(animations) + Explosions(AlienHits(lasers[..i], aliens), now, old(idCounter))
        invariant idCounter == old(idCounter) + |AlienHits(lasers[..i], aliens)|
        invariant IdsFresh()
      {
        var laser := lasers[i];
        ghost var earlier := Explosions(AlienHits(lasers[..i], aliens), now, old(idCounter));
        ghost var before, c := animations, idCounter;
        var struck := ExplodeStruck(laser, now);
        var intercepted := InterceptsOf(laser);
        ids := ids + struck + intercepted;
        ShotMarksStep(lasers, aliens, alienLasers, i);
        AlienHitsStep(lasers, aliens, i, now, old(idCounter), c);
        AppendAssoc(old(animations), earlier, Explosions(StruckBy(laser, aliens), now, c));
        i := i + 1;
      }
      assert lasers[..i] == lasers;
    }

    /**
     * Alien lasers against the ship's box taken once before the loop: every
     * overlapping laser costs a life and adds an explosion where the ship
     * currently is (off screen after the first hit).
     */
    method HitShip(now: int)
      requires IdsFresh()
      modifies this`animations, this`idCounter, this`ship, this`lives
      ensures IdsFresh()
      ensures var n := |Strikes(alienLasers, ShipBox(old(ship)))|;
        && lives == old(lives) - n
        && idCounter == old(idCounter) + n
        && animations == old(animations) + ShipExplosions(old(ship.pos), n, now, old(idCounter))
        && ship == if n == 0 then old(ship) else Wrecked(old(ship))
    {
      var box := ShipBox(ship);
      var i := 0;
      ghost var n: nat := 0;
      while i < |alienLasers|
        invariant 0 <= i <= |alienLasers|
        invariant n == |Strikes(alienLasers[..i], box)|
        invariant lives == old(lives) - n
        invariant idCounter == old(idCounter) + n
        invariant animations == old(animations) + ShipExplosions(old(ship.pos), n, now, old(idCounter))
        invariant ship == if n == 0 then old(ship) else Wrecked(old(ship))
        invariant IdsFresh()
      {
        StrikesStep(alienLasers, box, i);
        if Overlap(LaserBox(alienLasers[i]), box) {
          var boom := Explosion(ship.pos, now, idCounter);
          ghost var later := ShipExplosions(old(ship.pos), n + 1, now, old(idCounter));
          ShipExplosionsSnoc(old(ship.pos), n, now, old(idCounter));
          assert later == ShipExplosions(old(ship.pos), n, now, old(idCounter)) + [boom];
          ghost var before, c := animations, idCounter;
          assert before + [boom] == old(animations) + later;
          animations := animations + [boom];
          idCounter := idCounter + 1;
          PushAnimation(lasers, alienLasers, aliens, before, c, boom, animations, idCounter);
          ship := ship.(pos := Offscreen, dead := true);
          lives := lives - 1;
          ship := ship.(respawn := 1.0);
          n := n + 1;
        }
        i := i + 1;
      }
      assert alienLasers[..i] == alienLasers;
    }

    /** Every animation is advanced; finished ones add their id to the removal set. */
    method AdvanceAnimations(now: int, marked: set<int>) returns (ids: set<int>)
      requires IdsFresh()
      modifies this`animations
      ensures IdsFresh()
      ensures |animations| == |old(animations)|
      ensures forall k :: 0 <= k < |animations| ==> animations[k] == Advance(old(animations[k]), now)
      ensures ids == marked + FinishedIds(old(animations), now)
    {
      ids := marked;
      var i := 0;
      while i < |animations|
        invariant 0 <= i <= |animations| == |old(animations)|
        invariant forall k :: 0 <= k < i ==> animations[k] == Advance(old(animations[k]), now)
        invariant forall k :: i <= k < |animations| ==> animations[k] == old(animations[k])
        invariant ids == marked + FinishedIds(old(animations)[..i], now)
      {
        var ani := animations[i];
        assert old(animations)[..i + 1][..i] == old(animations)[..i];
        if now - ani.musStart > ani.musPerFrame {
          ani := ani.(currentFrame := ani.currentFrame + 1);
          if ani.currentFrame < ani.frames {
            ani := ani.(musStart := now);
          } else {
            ids := ids + {ani.id};
          }
        }
        animations := animations[i := ani];
        i := i + 1;
      }
      assert old(animations)[..i] == old(animations);
      IdsPointwise(animations, old(animations), AnimationId);
      FreshAfterShrink(lasers, alienLasers, aliens, old(animations), lasers, alienLasers, aliens, animations, idCounter);
    }

    /** The batched removal of every marked id from the four collections. */
    method RemoveMarked(ids: set<int>)
      requires IdsFresh()
      modifies this`lasers, this`alienLasers, this`aliens, this`animations
      ensures IdsFresh()
      ensures lasers == RemoveIds(old(lasers), LaserId, ids)
      ensures alienLasers == RemoveIds(old(alienLasers), LaserId, ids)
      ensures aliens == RemoveIds(old(aliens), AlienId, ids)
      ensures animations == RemoveIds(old(animations), AnimationId, ids)
    {
      if |ids| > 0 {
        var l := RemoveIds(lasers, LaserId, ids);
        var al := RemoveIds(alienLasers, LaserId, ids);
        var a := RemoveIds(aliens, AlienId, ids);
        var an := RemoveIds(animations, AnimationId, ids);
        IdsOfRemoveIds(lasers, LaserId, ids);
        IdsOfRemoveIds(alienLasers, LaserId, ids);
        IdsOfRemoveIds(aliens, AlienId, ids);
        IdsOfRemoveIds(animations, AnimationId, ids);
        FreshAfterShrink(lasers, alienLasers, aliens, animations, l, al, a, an, idCounter);
        lasers, alienLasers, aliens, animations := l, al, a, an;
      } else {
        RemoveAbsentIds(lasers, LaserId, ids);
        RemoveAbsentIds(alienLasers, LaserId, ids);
        RemoveAbsentIds(aliens, AlienId, ids);
        RemoveAbsentIds(animations, AnimationId, ids);
      }
    }

    /** One row of the wave: eight aliens left to right, 16 apart, each taking the next id. */
    method PushRow(i: nat)
      requires IdsFresh()
      modifies this`aliens, this`idCounter
      ensures IdsFresh()
      ensures aliens == old(aliens) + RowPrefix(i, 8, old(idCounter))
      ensures idCounter == old(idCounter) + 8
    {
      var j := 0;
      while j < 8
        invariant 0 <= j <= 8
        invariant aliens == old(aliens) + RowPrefix(i, j, old(idCounter))
        invariant idCounter == old(idCounter) + j
        invariant IdsFresh()
      {
        var alien := Alien(Vec2(20.0 + j as real * 16.0, 20.0 + i as real * 16.0), i % 3, idCounter);
        RowPrefixStep(i, j, old(idCounter));
        ghost var before, c := aliens, idCounter;
        assert before + [alien] == old(aliens) + RowPrefix(i, j + 1, old(idCounter));
        aliens := aliens + [alien];
        idCounter := idCounter + 1;
        PushAlien(lasers, alienLasers, before, animations, c, alien, aliens, idCounter);
        j := j + 1;
      }
    }

    /** Pushes the wave of the current level, row by row, each alien taking the next id. */
    method NewLevel()
      requires IdsFresh()
      modifies this`aliens, this`idCounter
      ensures IdsFresh()
      ensures aliens == old(aliens) + Wave(level, old(idCounter))
      ensures idCounter == old(idCounter) + 8 * Rows(level)
    {
      var i := 0;
      while i < level
        invariant 0 <= i <= Rows(level)
        invariant aliens == old(aliens) + WavePrefix(8 * i, old(idCounter))
        invariant idCounter == old(idCounter) + 8 * i
        invariant IdsFresh()
      {
        PushRow(i);
        WavePrefixRow(i, old(idCounter));
        assert aliens == old(aliens) + (WavePrefix(8 * i, old(idCounter)) + RowPrefix(i, 8, old(idCounter) + 8 * i));
        i := i + 1;
      }
    }

    /** When the wave is empty the level goes up by one and its wave is spawned. */
    method NewLevelIfCleared()
      requires IdsFresh() && level >= 1
      modifies this`level, this`aliens, this`idCounter
      ensures IdsFresh() && |aliens| > 0
      ensures old(|aliens|) > 0 ==>
        level == old(level) && aliens == old(aliens) && idCounter == old(idCounter)
      ensures old(|aliens|) == 0 ==>
        && level == old(level) + 1
        && aliens == Wave(level, old(idCounter))
        && |aliens| == 8 * level
        && idCounter == old(idCounter) + 8 * level
    {
      if |aliens| < 1 {
        level := level + 1;
        NewLevel();
      }
    }

    // ----- The frame, section by section ------------------------------------

    /** The ship section: steering, then the respawn timer. */
    method ShipSection(delta: real)
      requires ShipPlaced()
      modifies this`ship
      ensures ShipPlaced()
    {
      MoveShip(delta);
      TickRespawn(delta);
    }

    /** The player-laser section: firing, then culling and moving. */
    method LaserSection(delta: real)
      requires IdsFresh() && |lasers| <= MaxLasers && (input.shoot.press ==> input.shoot.hold)
      modifies this`lasers, this`idCounter, this`input
      ensures IdsFresh() && |lasers| <= MaxLasers && (input.shoot.press ==> input.shoot.hold)
      ensures |lasers| <= old(|lasers|) + 1
      ensures idCounter >= old(idCounter)
    {
      FireLaser();
      CullAndMoveLasers(delta);
    }

    /** The swarm section: the move direction, the move, the shots, then the alien lasers. */
    method AlienSection(delta: real, shots: seq<bool>)
      requires IdsFresh() && Horizontal(lastMove) && |shots| == |aliens|
      modifies this`move, this`lastMove, this`aliens, this`alienLasers, this`idCounter
      ensures IdsFresh() && Horizontal(lastMove)
      ensures lastMove == if old(move) != Down then old(move) else old(lastMove)
      ensures old(move) == Down ==> move != Down
      ensures |aliens| == old(|aliens|)
      ensures idCounter >= old(idCounter)
    {
      StepFormation();
      MoveSwarm();
      AliensShoot(shots);
      CullAndMoveAlienLasers(delta);
    }

    /** The collision section: player lasers, then alien lasers against the ship. */
    method Collisions(now: int) returns (ids: set<int>)
      requires IdsFresh() && ShipPlaced()
      modifies this`animations, this`idCounter, this`ship, this`lives
      ensures IdsFresh() && ShipPlaced()
      ensures ids == ShotMarks(lasers, aliens, alienLasers)
      ensures lives <= old(lives)
      ensures idCounter >= old(idCounter)
    {
      ids := ShootDown(now);
      HitShip(now);
    }

    /** The animation and removal sections: advance the animations, then erase every marked entity. */
    method Sweep(now: int, marked: set<int>)
      requires IdsFresh()
      modifies this`animations, this`lasers, this`alienLasers, this`aliens
      ensures IdsFresh()
      ensures var ids := marked + FinishedIds(old(animations), now);
        && lasers == RemoveIds(old(lasers), LaserId, ids)
        && aliens == RemoveIds(old(aliens), AlienId, ids)
    {
      var ids := AdvanceAnimations(now, marked);
      RemoveMarked(ids);
    }

    /** The first half of a frame: everything moves, and new lasers appear. */
    method MoveAll(delta: real, shots: seq<bool>)
      requires Valid() && |shots| == |aliens|
      modifies this`ship, this`lasers, this`idCounter, this`input
      modifies this`move, this`lastMove, this`aliens, this`alienLasers
      ensures Valid()
      ensures idCounter >= old(idCounter)
      ensures |lasers| <= old(|lasers|) + 1
      ensures lastMove == if old(move) != Down then old(move) else old(lastMove)
      ensures old(move) == Down ==> move != Down
      ensures |aliens| == old(|aliens|)
    {
      ShipSection(delta);
      LaserSection(delta);
      AlienSection(delta, shots);
    }

    /**
     * Collisions, animations and removal: a player laser that overlaps an
     * alien is gone afterwards, and so is the alien.
     */
    method CollideAndSweep(now: int)
      requires IdsFresh() && ShipPlaced()
      modifies this`animations, this`idCounter, this`ship, this`lives
      modifies this`lasers, this`alienLasers, this`aliens
      ensures IdsFresh() && ShipPlaced()
      ensures idCounter >= old(idCounter)
      ensures lives <= old(lives)
      ensures |lasers| <= old(|lasers|)
      ensures forall i, j :: 0 <= i < |old(lasers)| && 0 <= j < |old(aliens)| && Hits(old(lasers)[i], old(aliens)[j]) ==>
        old(lasers)[i] !in lasers && old(aliens)[j] !in aliens
    {
      ghost var l, a, al := lasers, aliens, alienLasers;
      var ids := Collisions(now);
      ghost var extra := FinishedIds(animations, now);
      Sweep(now, ids);
      forall i, j | 0 <= i < |l| && 0 <= j < |a| && Hits(l[i], a[j])
        ensures l[i] !in lasers && a[j] !in aliens
      {
        HitPairRemoved(l, a, al, extra, i, j);
      }
    }

    /** The second half of a frame: collisions, animations, removal and the next level. */
    method Resolve(now: int)
      requires Valid()
      modifies this`animations, this`idCounter, this`ship, this`lives
      modifies this`lasers, this`alienLasers, this`aliens, this`level
      ensures Valid()
      ensures idCounter >= old(idCounter)
      ensures lives <= old(lives)
      ensures |lasers| <= old(|lasers|)
      ensures level == old(level) || (level == old(level) + 1 && |aliens| == 8 * level)
      // A player laser that overlaps an alien is gone, and so is the alien, even when a new wave starts.
      ensures forall i, j :: 0 <= i < |old(lasers)| && 0 <= j < |old(aliens)| && Hits(old(lasers)[i], old(aliens)[j]) ==>
        old(lasers)[i] !in lasers && old(aliens)[j] !in aliens
    {
      ghost var a := aliens;
      AlienIdsBelow();
      CollideAndSweep(now);
      ghost var swept, c := aliens, idCounter;
      NewLevelIfCleared();
      forall j | 0 <= j < |a| && a[j] !in swept ensures a[j] !in aliens {
        if |swept| == 0 && a[j] in aliens {
          WaveIdsFrom(level, c, a[j]);
        }
      }
    }

    /** One frame of the simulation, with the frame time, the clock and the aliens' shot decisions. */
    method Update(delta: real, now: int, shots: seq<bool>)
      requires Valid()
      requires |shots| == |aliens|
      modifies this
      ensures Valid()
      ensures idCounter >= old(idCounter)
      ensures lives <= old(lives)
      ensures |lasers| <= old(|lasers|) + 1
      ensures lastMove == if old(move) != Down then old(move) else old(lastMove)
      ensures old(move) == Down ==> move != Down
      ensures level == old(level) || (level == old(level) + 1 && |aliens| == 8 * level)
    {
      MoveAll(delta, shots);
      Resolve(now);
    }
  }
}
