# Galactic Assault: the frame simulation

This project models the simulation core of Galactic Assault, a small SFML
space-invaders game, in Dafny, and proves what it does. It is built from:

- the rectangle test `overlap`;
- the level setup `new_level`;
- the frame step `update`, all of its steps;
- the key-down / key-up handling that sets the input flags.

The game state is the class `Game.State`. Its fields are:

- the id counter, the level and the lives;
- the ship record and the input flags;
- the swarm's `move` / `lastMove` pair;
- the four entity registries as sequences: player lasers, alien lasers, aliens and animations.

`update` becomes `Game.State.Update`. It runs one method per step of the source, in the source's order. The step methods are grouped as the source's comments group them (ship, lasers, aliens, collisions, animations and removal, new level).

Every loop of the source is a `while` loop, proved against a specification of what it has done after each prefix of its input:

- Loops that build a sequence or a set are specified by recursive functions on prefixes: `AlienShots`, `PairMarks`, `ShotMarks`, `AlienHits`, `Explosions`, `FinishedIds`.
- The inner collision loop and the ship-hit loop are specified by the filters `StruckBy` and `Strikes`. These are `EraseIf`, which recurses on the tail; the loops extend them one element at a time through `StruckByStep` and `StrikesStep`.
- The wave loops are specified by the `seq` comprehensions `WavePrefix` and `RowPrefix`.
- Loops that change every element in place (`ShiftAll`, `DisplaceSwarm`, the per-animation part of `AdvanceAnimations`) and the `any_of` search (`AnyAtEdge`) have quantified invariants, element by element.

The properties the game relies on are lemmas about those specifications:

- every mark the collision loop inserts comes from an overlapping pair, and so does every mark of the animation loop from a finished animation;
- the removal is an order-preserving filter;
- a wave has `8 * level` aliens laid out row by row;
- the formation never stays in DOWN;
- an explosion is removed in its fourth due update, whatever the update times.

These invariants hold between frames (`Game.State.Valid`):

- live ids are pairwise distinct and below the counter;
- there are at most two player lasers;
- the ship is inside the margins, or parked off screen when dead;
- the remembered move is horizontal;
- `press` implies `hold`;
- the level is at least 1 and the swarm is never empty.

Frame inputs are parameters of `Update`:

- `delta`, the frame time in seconds, as a `real`;
- `now`, the clock in microseconds, as an `int`;
- `shots`, one boolean per alien that replaces the `rand() % 1000 < 2` draw.

There is no game-over state: lives go down on every hit and can become negative. The model follows the code here.

## Model

| member | source | states |
|---|---|---|
| Geometry.Overlap | src/main.cpp:101 | The rectangle test: strict axis-aligned intersection with positive area, which holds only for two rectangles of positive size. |
| Geometry.OverlapSymmetric | src/main.cpp:101 | Overlap does not depend on the order of the two rectangles. |
| Geometry.OverlapAsSeparation | src/main.cpp:101 | For rectangles of positive size, overlap is the strict four-sided AABB test. |
| Geometry.TouchingDoNotOverlap | src/main.cpp:101 | Rectangles that only share an edge do not overlap. |
| Entities.AlienShotIgnoresTypeOffset | src/main.cpp:195-197 | Every alien shot starts at the fixed offset (5, 8), never at the alien type's own shot offset. |
| Controls.Steer | src/main.cpp:118 | The steering factor is in [-1, 1]; it is +1 exactly when only right is held, and -1 exactly when only left is held. |
| Game.State.KeyPressed | src/main.cpp:390-412 | A/Left and D/Right set only their own hold flag. Space sets hold and arms press exactly when Space was not already held. Z and other keys change nothing. Valid is kept. |
| Game.State.KeyReleased | src/main.cpp:413-431 | A/Left and D/Right clear only their own hold flag. Space clears both hold and press. Other keys change nothing. |
| Game.State.MoveShip | src/main.cpp:118-125 | The x position is the steered position clamped to [20, 312 - width - 20], by the three cases of the source; this applies to a dead ship too. Nothing else of the ship changes. |
| Game.State.TickRespawn | src/main.cpp:127-136 | A live ship is untouched. A dead ship's timer drops by delta. It revives at (150, 256 - height - 20) exactly when the timer is below zero and lives remain. |
| Game.State.FireLaser | src/main.cpp:140-150 | A laser at ship + (5, 16) with the next id is appended exactly when press holds and fewer than 2 lasers exist; only then is press cleared and the counter advanced. |
| Registry.EraseIf | src/main.cpp:152 | The filter never lengthens the sequence. |
| Registry.EraseIfKeeps | src/main.cpp:152 | An element survives the filter exactly when it was present and is not doomed. |
| Registry.EraseIfSubMultiset | src/main.cpp:152 | The filter adds no element and repeats none. |
| Registry.EraseIfAppend | src/main.cpp:152 | Filtering distributes over concatenation, so survivors keep their relative order. |
| Registry.EraseIfSnoc | src/main.cpp:152 | One more element adds itself to the filtered prefix or nothing. |
| Registry.EraseIfNothingDoomed | src/main.cpp:152 | When nothing is doomed the filter is the identity. |
| Registry.EraseIfIdempotent | src/main.cpp:152 | Filtering twice is filtering once. |
| Registry.IdsOfEraseIf | src/main.cpp:152 | The ids of the survivors are a sub-multiset of the original ids. |
| Lasers.ShiftAll | src/main.cpp:154-156 | Every laser moves vertically by dy; x, size, id and order are unchanged. |
| Game.State.CullAndMoveLasers | src/main.cpp:152-156 | The new lasers are exactly the lasers not above y = -10, in order, each moved up by 150 * delta. The ids stay fresh. |
| Swarm.AnyAtEdge | src/main.cpp:163-166 | The loop finds an alien at an edge exactly when one exists (x < 20 or x > 312 - 20 - width). |
| Swarm.NextFormation | src/main.cpp:160-174 | Outside DOWN, lastMove takes the old move and move becomes DOWN exactly on an edge. In DOWN, move leaves it for the horizontal direction other than lastMove. lastMove stays horizontal. |
| Swarm.BounceReverses | src/main.cpp:160-174 | A horizontal move that meets an edge goes DOWN, then reverses. |
| Swarm.RunAlternates | src/main.cpp:160-174 | Over any run of frames, lastMove is horizontal, DOWN never holds twice in a row, and every DOWN pulse leaves for the opposite of the move before it. |
| Game.State.StepFormation | src/main.cpp:160-174 | The new (move, lastMove) is NextFormation of the old pair and the swarm's edge test. |
| Swarm.DisplaceSwarm | src/main.cpp:176-190 | Every alien moves by the same offset (+1 x for RIGHT, -1 x for LEFT, +10 y for DOWN); kind, id, count and order are kept, so the swarm's shape is rigid. |
| Game.State.MoveSwarm | src/main.cpp:176-190 | Alien k becomes alien k displaced by the current move's offset. The ids stay fresh. |
| Swarm.AlienShots | src/main.cpp:192-202 | A frame spawns at most one alien laser per alien. |
| Swarm.AlienShotsIds | src/main.cpp:192-202 | Spawned alien lasers take consecutive ids from the counter. |
| Swarm.AlienShotsCount | src/main.cpp:192-202 | One alien laser is spawned per alien whose decision is to fire. |
| Swarm.AlienShotsFrom | src/main.cpp:192-202 | Every spawned alien laser is the shot of a firing alien, from that alien's position. |
| Swarm.AlienShotsOfFiring | src/main.cpp:192-202 | Conversely, every alien that decides to fire spawns its shot from its position, with the id that follows the earlier aliens' shots. |
| Game.State.AliensShoot | src/main.cpp:192-202 | The alien lasers gain exactly AlienShots of the swarm and the decisions; the counter advances by their number. The ids stay fresh. |
| Game.State.CullAndMoveAlienLasers | src/main.cpp:204-208 | The new alien lasers are exactly those not below y = 256, in order, each moved down by 150 * delta. |
| Combat.StruckByKeeps | src/main.cpp:216-219 | An alien is struck by a laser exactly when it is in the swarm and overlaps the laser. |
| Combat.AlienHitsExactly | src/main.cpp:213-219 | An alien is among the frame's hits exactly when some player laser overlaps it. |
| Combat.ExplosionsAt | src/main.cpp:220-229 | Explosion k is a 4-frame, 100000-microsecond explosion at hit k's position, started now, with id first + k. |
| Combat.ExplosionsAppend | src/main.cpp:220-229 | The explosions of two runs of hits follow each other, and the second run is numbered on. |
| Combat.PairMarksExactly | src/main.cpp:216-233 | The inner alien loop marks x exactly when x is the laser's or the alien's id of an overlapping pair. |
| Combat.InterceptMarksExactly | src/main.cpp:236-244 | The inner alien-laser loop marks x exactly when x is either id of an overlapping laser pair. |
| Combat.ShotMarksExactly | src/main.cpp:211-246 | The removal marks of the laser loop are exactly the ids of overlapping (laser, alien) or (laser, alien laser) pairs. |
| Combat.HitMarksBoth | src/main.cpp:231-232 | A player laser and an alien that overlap are both marked. |
| Combat.InterceptMarksBoth | src/main.cpp:240-241 | A player laser and an alien laser that overlap are both marked. |
| Game.State.ExplodeStruck | src/main.cpp:216-234 | For one laser: the marks are PairMarks, one explosion per struck alien is appended in swarm order with consecutive ids, and the ids stay fresh. |
| Game.State.InterceptsOf | src/main.cpp:236-244 | For one laser: the marks are InterceptMarks over the alien lasers. |
| Game.State.ShootDown | src/main.cpp:210-246 | The removal set is ShotMarks of the snapshot, and the animations gain the explosions of AlienHits in loop order, numbered from the counter. |
| Combat.StrikesKeeps | src/main.cpp:249-251 | An alien laser strikes the ship box exactly when it is present and overlaps the box. |
| Combat.ShipExplosionsAt | src/main.cpp:252-260 | The first ship explosion of a frame is at the ship's position; later ones are at (-100, -100), where the first hit parked it. Ids are consecutive. |
| Combat.Wrecked | src/main.cpp:261-264 | A hit ship is dead, at (-100, -100), with respawn 1 and its size kept. |
| Game.State.HitShip | src/main.cpp:248-266 | With n alien lasers overlapping the box taken before the loop: lives drop by n, n ship explosions are appended, the counter advances by n, and the ship is wrecked if n > 0, untouched otherwise. |
| Animations.Advance | src/main.cpp:268-276 | A due animation (now - start > per-frame time) moves to its next frame and restarts its timer if frames remain; otherwise it keeps it. A not-due animation is unchanged. Nothing else changes. |
| Animations.FinishedIdsExactly | src/main.cpp:268-277 | The animation loop marks x exactly when some due animation stepping past its last frame has id x. |
| Animations.FreshExplosionWaits | src/main.cpp:226-227 | An explosion started at now is not advanced in the same update. |
| Animations.PlaysRemainingFrames | src/main.cpp:268-276 | Given due, widely spaced updates, an animation on frame c of n is advanced n - c - 1 times and marked at the next update. |
| Animations.ExplosionRemovedOnFourthAdvance | src/main.cpp:220-229 | A collision explosion, updated more than 100000 microseconds apart, is marked for removal in the fourth update after it is created. |
| Animations.RemovedOnLastFrame | src/main.cpp:268-276 | Whatever the update times, the update in which an animation is marked finds it due on its last frame, and no earlier update marks it. |
| Animations.PlayedCountsDue | src/main.cpp:269-270 | Over any updates, the frame advances by exactly the number of due updates. |
| Animations.RemovedAtLastDue | src/main.cpp:268-276 | Conversely, whatever the update times, an animation is marked in the update that finds it due on its last frame. |
| Animations.ExplosionRemovedOnFourthDueUpdate | src/main.cpp:220-229 | Whatever the update times, a collision explosion is marked in update k exactly when update k is due and has exactly three due updates before it. That is its fourth qualifying advance. |
| Game.State.AdvanceAnimations | src/main.cpp:267-277 | Every animation k becomes Advance of itself. The removal set gains exactly FinishedIds. |
| Registry.RemoveIds | src/main.cpp:281-285 | The batched removal never lengthens a registry. |
| Registry.RemoveIdsKeeps | src/main.cpp:281-285 | An entity survives the removal exactly when it was present and its id is not marked. |
| Registry.RemoveIdsAppend | src/main.cpp:281-285 | The removal distributes over concatenation, keeping relative order. |
| Registry.RemoveIdsSingle | src/main.cpp:281-285 | A single entity is kept exactly when its id is not marked. |
| Registry.RemoveAbsentIds | src/main.cpp:281-285 | Removing ids that no entity carries is a no-op. |
| Registry.RemoveIdsIdempotent | src/main.cpp:281-285 | Removing the same ids twice is removing them once. |
| Registry.IdsOfRemoveIds | src/main.cpp:281-285 | Removal never adds or repeats an id. |
| Combat.HitPairRemoved | src/main.cpp:231-232 | After the removal, neither member of an overlapping (laser, alien) pair survives, whatever else was marked. |
| Game.State.RemoveMarked | src/main.cpp:279-286 | Each of the four registries becomes itself with the marked ids removed, with or without the size() > 0 guard. The ids stay fresh. |
| Waves.Wave | src/main.cpp:103-113 | The wave of a level has 8 aliens per row, and no rows for level <= 0. |
| Waves.WaveAt | src/main.cpp:104-110 | Alien (i, j) is at index 8i + j, at (20 + 16j, 20 + 16i), with type i mod 3 and id first + 8i + j. |
| Waves.WaveIdsFrom | src/main.cpp:109 | Every alien of a wave has an id at or above the counter value its numbering starts from. |
| Waves.WavePrefixRow | src/main.cpp:104-111 | The wave grows row by row, each row taking the next eight ids. |
| Game.State.PushRow | src/main.cpp:105-111 | One row appends its eight aliens in column order, with consecutive ids. |
| Game.State.NewLevel | src/main.cpp:103-113 | The aliens become the old aliens followed by the level's wave, numbered from the counter. The counter advances by 8 per row. The ids stay fresh. |
| Game.State.NewLevelIfCleared | src/main.cpp:289-294 | With aliens left, nothing changes. With none, the level goes up by one and the swarm becomes its wave of 8 * level aliens. |
| Registry.UniqueBelowSub | src/main.cpp:281-285 | A sub-multiset of unique ids below the counter is unique below it too. |
| Registry.NextIdStaysUnique | src/main.cpp:146 | Handing out the counter and advancing it keeps all ids unique and below the counter. |
| Registry.DistinctBelowIsUnique | src/main.cpp:109 | Ids pairwise distinct and below a bound are exactly a multiset in which each id occurs once, below the bound. |
| Registry.UniqueMeansDistinct | src/main.cpp:199 | Unique ids are pairwise distinct, position by position. |
| Game.FreshIsUnique | src/main.cpp:227 | Freshness of the four registries is uniqueness of their combined id multiset. |
| Game.FreshAfterShrink | src/main.cpp:281-285 | Removing entities, or changing them but not their ids, keeps the ids fresh. |
| Game.PushLaser | src/main.cpp:142-147 | Appending a player laser with the counter's id, and advancing the counter, keeps the ids fresh. |
| Game.PushAlienLaser | src/main.cpp:195-200 | Appending an alien laser with the counter's id keeps the ids fresh. |
| Game.PushAlien | src/main.cpp:106-110 | Appending an alien with the counter's id keeps the ids fresh. |
| Game.PushAnimation | src/main.cpp:252-259 | Appending an animation with the counter's id keeps the ids fresh. |
| Game.State.LiveIdsDistinct | src/main.cpp:259 | All live ids of the four registries are pairwise distinct and below the counter. |
| Game.State.AlienIdsBelow | src/main.cpp:109 | Every alien's id is below the counter. |
| Game.State.ShipSection | src/main.cpp:117-136 | The ship section keeps the ship inside the margins, or parked when dead. |
| Game.State.LaserSection | src/main.cpp:139-156 | The laser section keeps the cap of 2 lasers, press implying hold, and fresh ids; it adds at most one laser. |
| Game.State.AlienSection | src/main.cpp:158-208 | The swarm section keeps lastMove horizontal and the alien count, and never leaves the swarm in DOWN twice. |
| Game.State.Collisions | src/main.cpp:210-266 | The collision section's removal set is ShotMarks of the snapshot; lives never go up. |
| Game.State.Sweep | src/main.cpp:267-286 | The player lasers and aliens are filtered by the collision marks plus the finished animations' ids. |
| Game.State.MoveAll | src/main.cpp:117-208 | Moving everything keeps Valid, adds at most one player laser and keeps the alien count. |
| Game.State.CollideAndSweep | src/main.cpp:210-286 | Every player laser and alien that overlapped at collision time is gone after the removal. |
| Game.State.Resolve | src/main.cpp:210-294 | Collisions, removal and the level check keep Valid. A player laser and an alien that overlapped are both gone afterwards, even when a new wave starts, because the new wave's ids are all new. |
| Game.State.Update | src/main.cpp:116-295 | One frame keeps Valid: unique fresh ids, at most 2 lasers, the ship placed, lastMove horizontal, press implies hold, a non-empty swarm. Lives never go up. The level goes up by at most one, to a wave of 8 * level aliens. DOWN never lasts two frames. |

## Left out

- The window, sprite loading, `render`, `draw_sprite`, vertical sync and event polling are SFML I/O; the key handlers take the key code as a parameter.
- `rand` and `srand` are replaced by the `shots` decisions, one per alien per frame; the distribution (2 in 1000) is not modelled.
- Floating point: positions, sizes, `delta` and the respawn timer are exact reals, so rounding of the float arithmetic is not modelled.
- The clock, the frame-time computation, the FPS counter and its console output are outside `update`. `delta` and `now` are inputs.
- `int` overflow of the id counter, the lives and the 64-bit timestamps: all are unbounded integers here.
- Geometry.Overlap is the positive-area strict intersection test. SFML's handling of rectangles with negative sizes is not modelled; every rectangle of the game has a positive size.
- The initial state built in `main` is not modelled, because it reads the ship's size before setting it. `Valid` states what `Update` needs of a starting state.
- The Z debug key is accepted and does nothing, as in the source.
- Game.State.ShipSection: states only the ship-placement invariant; the exact effect is on MoveShip and TickRespawn.
- Game.State.LaserSection: states only the invariants and bounds; the exact effect is on FireLaser and CullAndMoveLasers.
- Game.State.AlienSection: states only the formation and count facts; the exact effect is on StepFormation, MoveSwarm, AliensShoot and CullAndMoveAlienLasers.
- Game.State.Collisions: does not restate the explosions and ship effects; ShootDown and HitShip state them.
- Game.State.Sweep: says nothing about the new alien lasers and animations; AdvanceAnimations and RemoveMarked state them.
- Game.State.MoveAll: states the invariant and the counts, not each entity's new position.
- Game.State.CollideAndSweep: states the removal of overlapping player-laser and alien pairs, not the removal of intercepted laser pairs or finished animations; the step methods state those.
- Game.State.Resolve: states the invariant, the level rule and the removal of overlapping (laser, alien) pairs, not each registry's exact new contents.
- Game.State.Update: states the invariant and the summary facts about one frame; each step's exact effect is on the step methods, and the removal of overlapping pairs is on Resolve, because the hit pairs are taken after the lasers have moved.
