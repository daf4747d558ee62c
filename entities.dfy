/**
 * The records of the game (lasers, aliens, animations, the ship), the
 * alien-type table and the game's constants.
 */
module Entities {
  import opened Geometry

  const ShipSpeed: real := 100.0
  const LaserSpeed: real := 150.0
  const MaxLasers: nat := 2
  const ScreenHeight: real := 256.0
  const ScreenWidth: real := 312.0
  const Padding: real := 20.0

  /** The ship's size, fixed when the game starts. */
  const ShipSize: Vec2 := Vec2(12.0, 15.0)

  /** Where a destroyed ship is parked until it respawns. */
  const Offscreen: Vec2 := Vec2(-100.0, -100.0)

  /** A 16x16 cell of the sprite sheet, by column and row. */
  datatype Tile = Tile(col: int, row: int)

  datatype Laser = Laser(pos: Vec2, size: Vec2, sprite: Tile, id: int)

  /** Index into the alien-type table. */
  type AlienKind = k: int | 0 <= k < 3

  datatype Alien = Alien(pos: Vec2, kind: AlienKind, id: int)

  datatype AlienType = AlienType(size: Vec2, sprite: Tile, shotOffset: Vec2)

  datatype Animation = Animation(
    pos: Vec2,
    spriteStart: Tile,
    currentFrame: int,
    frames: int,
    musPerFrame: int,
    musStart: int,
    id: int)

  datatype Ship = Ship(pos: Vec2, size: Vec2, dead: bool, respawn: real)

  /** The swarm's movement state. */
  datatype Move = Right | Left | Down

  function TypeOf(kind: AlienKind): AlienType {
    [ AlienType(Vec2(12.0, 8.0), Tile(0, 2), Vec2(5.0, 7.0)),
      AlienType(Vec2(10.0, 9.0), Tile(1, 2), Vec2(4.0, 7.0)),
      AlienType(Vec2(8.0, 13.0), Tile(2, 2), Vec2(3.0, 10.0)) ][kind]
  }

  function LaserId(l: Laser): int { l.id }
  function AlienId(a: Alien): int { a.id }
  function AnimationId(a: Animation): int { a.id }

  function LaserBox(l: Laser): Rect { Rect(l.pos, l.size) }
  function AlienBox(a: Alien): Rect { Rect(a.pos, TypeOf(a.kind).size) }
  function ShipBox(s: Ship): Rect { Rect(s.pos, s.size) }

  /** A player laser fired from a ship at `shipPos`. */
  function PlayerShot(shipPos: Vec2, id: int): Laser {
    Laser(shipPos.Plus(Vec2(5.0, 16.0)), Vec2(2.0, 7.0), Tile(0, 1), id)
  }

  /** An alien laser fired by an alien at `alienPos`: the offset is fixed, whatever the alien's type. */
  function AlienShot(alienPos: Vec2, id: int): Laser {
    Laser(alienPos.Plus(Vec2(5.0, 8.0)), Vec2(2.0, 7.0), Tile(0, 4), id)
  }

  /** The four-frame explosion played where an alien or the ship was destroyed. */
  function Explosion(pos: Vec2, now: int, id: int): Animation {
    Animation(pos, Tile(0, 3), 0, 4, 100000, now, id)
  }

  /** Alien shots do not start at the type's own shot offset, for any type. */
  lemma AlienShotIgnoresTypeOffset(a: Alien, id: int)
    ensures AlienShot(a.pos, id).pos != a.pos.Plus(TypeOf(a.kind).shotOffset)
  {
  }
}
