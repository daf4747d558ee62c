/**
 * Collision resolution of one frame, all against the same snapshot: player
 * lasers against aliens and against alien lasers (marking ids for removal and
 * spawning explosions), and alien lasers against the ship.
 */
module Combat {
  import opened Geometry
  import opened Registry
  import opened Entities

  predicate Hits(l: Laser, a: Alien) { Overlap(LaserBox(l), AlienBox(a)) }

  predicate Intercepts(l: Laser, m: Laser) { Overlap(LaserBox(l), LaserBox(m)) }

  function Misses(l: Laser): Alien -> bool { a => !Hits(l, a) }

  /** The aliens laser `l` overlaps, in swarm order. */
  function StruckBy(l: Laser, aliens: seq<Alien>): (r: seq<Alien>)
    ensures |r| <= |aliens|
  {
    EraseIf(aliens, Misses(l))
  }

  lemma StruckByKeeps(l: Laser, aliens: seq<Alien>, a: Alien)
    ensures a in StruckBy(l, aliens) <==> a in aliens && Hits(l, a)
  {
    EraseIfKeeps(aliens, Misses(l), a);
  }

  lemma StruckByStep(l: Laser, aliens: seq<Alien>, j: nat)
    requires j < |aliens|
    ensures StruckBy(l, aliens[..j + 1]) ==
            StruckBy(l, aliens[..j]) + (if Hits(l, aliens[j]) then [aliens[j]] else [])
  {
    EraseIfSnoc(aliens, j, Misses(l));
  }

  /** Every (laser, alien) overlap in loop order: lasers outside, aliens inside. */
  function AlienHits(lasers: seq<Laser>, aliens: seq<Alien>): seq<Alien>
    decreases |lasers|
  {
    if lasers == [] then []
    else
      var n := |lasers| - 1;
      AlienHits(lasers[..n], aliens) + StruckBy(lasers[n], aliens)
  }

  /** The next laser of the loop adds the aliens it overlaps, and their explosions. */
  lemma AlienHitsStep(lasers: seq<Laser>, aliens: seq<Alien>, i: nat, now: int, first: int, next: int)
    requires i < |lasers| && next == first + |AlienHits(lasers[..i], aliens)|
    ensures AlienHits(lasers[..i + 1], aliens) == AlienHits(lasers[..i], aliens) + StruckBy(lasers[i], aliens)
    ensures Explosions(AlienHits(lasers[..i + 1], aliens), now, first) ==
            Explosions(AlienHits(lasers[..i], aliens), now, first) + Explosions(StruckBy(lasers[i], aliens), now, next)
  {
    assert lasers[..i + 1][..i] == lasers[..i];
    ExplosionsAppend(AlienHits(lasers[..i], aliens), StruckBy(lasers[i], aliens), now, first);
  }

  /** An alien is among the hits exactly when some laser overlaps it. */
  lemma {:induction false} AlienHitsExactly(lasers: seq<Laser>, aliens: seq<Alien>, a: Alien)
    ensures a in AlienHits(lasers, aliens) <==>
            a in aliens && exists i :: 0 <= i < |lasers| && Hits(lasers[i], a)
    decreases |lasers|
  {
    if lasers != [] {
      var n := |lasers| - 1;
      var init, last := lasers[..n], lasers[n];
      AlienHitsExactly(init, aliens, a);
      var earlier, now := AlienHits(init, aliens), StruckBy(last, aliens);
      StruckByKeeps(last, aliens, a);
      assert AlienHits(lasers, aliens) == earlier + now;
      assert a in earlier + now <==> a in earlier || a in now;
      if a in earlier {
        var i :| 0 <= i < n && Hits(init[i], a);
        assert init[i] == lasers[i];
      }
      if a in aliens && exists i :: 0 <= i < |lasers| && Hits(lasers[i], a) {
        var i :| 0 <= i < |lasers| && Hits(lasers[i], a);
        if i < n {
          assert init[i] == lasers[i];
        }
      }
    }
  }

  /** One explosion per hit, at the alien's position, ids consecutive from `first`. */
  function Explosions(hits: seq<Alien>, now: int, first: int): (r: seq<Animation>)
    ensures |r| == |hits|
    decreases |hits|
  {
    if hits == [] then []
    else
      var n := |hits| - 1;
      Explosions(hits[..n], now, first) + [Explosion(hits[n].pos, now, first + n)]
  }

  /** Explosion k is a fresh explosion at hit k's position, with id `first + k`. */
  lemma {:induction false} ExplosionsAt(hits: seq<Alien>, now: int, first: int, k: nat)
    requires k < |hits|
    ensures Explosions(hits, now, first)[k] == Explosion(hits[k].pos, now, first + k)
    ensures Explosions(hits, now, first)[k].id == first + k
    decreases |hits|
  {
    var n := |hits| - 1;
    if k < n {
      ExplosionsAt(hits[..n], now, first, k);
    }
  }

  /** One more hit adds one explosion at its position, with the next id. */
  lemma ExplosionsSnoc(hits: seq<Alien>, a: Alien, now: int, first: int, next: int)
    requires next == first + |hits|
    ensures Explosions(hits + [a], now, first) == Explosions(hits, now, first) + [Explosion(a.pos, now, next)]
  {
    assert (hits + [a])[..|hits|] == hits;
  }

  /** The explosions of two runs of hits follow each other, the second numbered on. */
  lemma {:induction false} ExplosionsAppend(hits: seq<Alien>, more: seq<Alien>, now: int, first: int)
    ensures Explosions(hits + more, now, first) ==
            Explosions(hits, now, first) + Explosions(more, now, first + |hits|)
    decreases |more|
  {
    if more == [] {
      assert hits + more == hits;
    } else {
      var n := |more| - 1;
      var init, y := more[..n], more[n];
      assert more == init + [y];
      assert hits + more == (hits + init) + [y];
      ExplosionsAppend(hits, init, now, first);
      ExplosionsSnoc(hits + init, y, now, first, first + |hits| + |init|);
      ExplosionsSnoc(init, y, now, first + |hits|, first + |hits| + |init|);
    }
  }

  /** The ids the inner alien loop inserts for laser `l`. */
  function PairMarks(l: Laser, aliens: seq<Alien>): set<int>
    decreases |aliens|
  {
    if aliens == [] then {}
    else
      var n := |aliens| - 1;
      PairMarks(l, aliens[..n]) + (if Hits(l, aliens[n]) then {l.id, aliens[n].id} else {})
  }

  /** The ids the inner alien-laser loop inserts for laser `l`. */
  function InterceptMarks(l: Laser, als: seq<Laser>): set<int>
    decreases |als|
  {
    if als == [] then {}
    else
      var n := |als| - 1;
      InterceptMarks(l, als[..n]) + (if Intercepts(l, als[n]) then {l.id, als[n].id} else {})
  }

  lemma PairMarksStep(l: Laser, aliens: seq<Alien>, j: nat)
    requires j < |aliens|
    ensures PairMarks(l, aliens[..j + 1]) ==
            PairMarks(l, aliens[..j]) + (if Hits(l, aliens[j]) then {l.id, aliens[j].id} else {})
  {
    assert aliens[..j + 1][..j] == aliens[..j];
  }

  lemma InterceptMarksStep(l: Laser, als: seq<Laser>, k: nat)
    requires k < |als|
    ensures InterceptMarks(l, als[..k + 1]) ==
            InterceptMarks(l, als[..k]) + (if Intercepts(l, als[k]) then {l.id, als[k].id} else {})
  {
    assert als[..k + 1][..k] == als[..k];
  }

  /** The ids the whole player-laser loop inserts into the removal set. */
  function ShotMarks(lasers: seq<Laser>, aliens: seq<Alien>, als: seq<Laser>): set<int>
    decreases |lasers|
  {
    if lasers == [] then {}
    else
      var n := |lasers| - 1;
      ShotMarks(lasers[..n], aliens, als) + PairMarks(lasers[n], aliens) + InterceptMarks(lasers[n], als)
  }

  /** The next laser of the loop adds its pair marks and its intercept marks. */
  lemma ShotMarksStep(lasers: seq<Laser>, aliens: seq<Alien>, als: seq<Laser>, i: nat)
    requires i < |lasers|
    ensures ShotMarks(lasers[..i + 1], aliens, als) ==
            ShotMarks(lasers[..i], aliens, als) + PairMarks(lasers[i], aliens) + InterceptMarks(lasers[i], als)
  {
    assert lasers[..i + 1][..i] == lasers[..i];
  }

  lemma {:induction false} PairMarksExactly(l: Laser, aliens: seq<Alien>, x: int)
    ensures x in PairMarks(l, aliens) <==>
            exists j :: 0 <= j < |aliens| && Hits(l, aliens[j]) && (x == l.id || x == aliens[j].id)
    decreases |aliens|
  {
    if aliens != [] {
      var n := |aliens| - 1;
      PairMarksExactly(l, aliens[..n], x);
      if exists j :: 0 <= j < |aliens| && Hits(l, aliens[j]) && (x == l.id || x == aliens[j].id) {
        var j :| 0 <= j < |aliens| && Hits(l, aliens[j]) && (x == l.id || x == aliens[j].id);
        if j < n { assert aliens[..n][j] == aliens[j]; }
      }
    }
  }

  lemma {:induction false} InterceptMarksExactly(l: Laser, als: seq<Laser>, x: int)
    ensures x in InterceptMarks(l, als) <==>
            exists j :: 0 <= j < |als| && Intercepts(l, als[j]) && (x == l.id || x == als[j].id)
    decreases |als|
  {
    if als != [] {
      var n := |als| - 1;
      InterceptMarksExactly(l, als[..n], x);
      if exists j :: 0 <= j < |als| && Intercepts(l, als[j]) && (x == l.id || x == als[j].id) {
        var j :| 0 <= j < |als| && Intercepts(l, als[j]) && (x == l.id || x == als[j].id);
        if j < n { assert als[..n][j] == als[j]; }
      }
    }
  }

  /** `x` is the id of either member of some overlapping (player laser, alien) pair. */
  ghost predicate HitPair(x: int, lasers: seq<Laser>, aliens: seq<Alien>) {
    exists i, j :: 0 <= i < |lasers| && 0 <= j < |aliens| && Hits(lasers[i], aliens[j]) &&
      (x == lasers[i].id || x == aliens[j].id)
  }

  /** `x` is the id of either member of some overlapping (player laser, alien laser) pair. */
  ghost predicate InterceptPair(x: int, lasers: seq<Laser>, als: seq<Laser>) {
    exists i, j :: 0 <= i < |lasers| && 0 <= j < |als| && Intercepts(lasers[i], als[j]) &&
      (x == lasers[i].id || x == als[j].id)
  }

  /**
   * The declarative reading of the removal marks: `x` belongs to an
   * overlapping (laser, alien) pair or to an overlapping pair of lasers.
   */
  ghost predicate ShotDown(x: int, lasers: seq<Laser>, aliens: seq<Alien>, als: seq<Laser>) {
    HitPair(x, lasers, aliens) || InterceptPair(x, lasers, als)
  }

  /** A pair involves the last laser of a run or one of the lasers before it. */
  lemma HitPairSnoc(x: int, lasers: seq<Laser>, aliens: seq<Alien>)
    requires lasers != []
    ensures var n := |lasers| - 1;
            HitPair(x, lasers, aliens) <==>
            HitPair(x, lasers[..n], aliens) ||
            exists j :: 0 <= j < |aliens| && Hits(lasers[n], aliens[j]) && (x == lasers[n].id || x == aliens[j].id)
  {
    var n := |lasers| - 1;
    if HitPair(x, lasers, aliens) {
      var i, j :| 0 <= i < |lasers| && 0 <= j < |aliens| && Hits(lasers[i], aliens[j]) &&
        (x == lasers[i].id || x == aliens[j].id);
      if i < n { assert lasers[..n][i] == lasers[i]; }
    }
    if HitPair(x, lasers[..n], aliens) {
      var i, j :| 0 <= i < n && 0 <= j < |aliens| && Hits(lasers[..n][i], aliens[j]) &&
        (x == lasers[..n][i].id || x == aliens[j].id);
      assert lasers[..n][i] == lasers[i];
    }
  }

  lemma InterceptPairSnoc(x: int, lasers: seq<Laser>, als: seq<Laser>)
    requires lasers != []
    ensures var n := |lasers| - 1;
            InterceptPair(x, lasers, als) <==>
            InterceptPair(x, lasers[..n], als) ||
            exists j :: 0 <= j < |als| && Intercepts(lasers[n], als[j]) && (x == lasers[n].id || x == als[j].id)
  {
    var n := |lasers| - 1;
    if InterceptPair(x, lasers, als) {
      var i, j :| 0 <= i < |lasers| && 0 <= j < |als| && Intercepts(lasers[i], als[j]) &&
        (x == lasers[i].id || x == als[j].id);
      if i < n { assert lasers[..n][i] == lasers[i]; }
    }
    if InterceptPair(x, lasers[..n], als) {
      var i, j :| 0 <= i < n && 0 <= j < |als| && Intercepts(lasers[..n][i], als[j]) &&
        (x == lasers[..n][i].id || x == als[j].id);
      assert lasers[..n][i] == lasers[i];
    }
  }

  /** The removal marks of the laser loop are exactly the ids of the overlapping pairs. */
  lemma {:induction false} ShotMarksExactly(lasers: seq<Laser>, aliens: seq<Alien>, als: seq<Laser>, x: int)
    ensures x in ShotMarks(lasers, aliens, als) <==> ShotDown(x, lasers, aliens, als)
    decreases |lasers|
  {
    if lasers != [] {
      var n := |lasers| - 1;
      ShotMarksExactly(lasers[..n], aliens, als, x);
      PairMarksExactly(lasers[n], aliens, x);
      InterceptMarksExactly(lasers[n], als, x);
      HitPairSnoc(x, lasers, aliens);
      InterceptPairSnoc(x, lasers, als);
    }
  }

  /** A player laser and an alien that overlap are both marked. */
  lemma HitMarksBoth(lasers: seq<Laser>, aliens: seq<Alien>, als: seq<Laser>, i: nat, j: nat)
    requires i < |lasers| && j < |aliens| && Hits(lasers[i], aliens[j])
    ensures lasers[i].id in ShotMarks(lasers, aliens, als)
    ensures aliens[j].id in ShotMarks(lasers, aliens, als)
  {
    ShotMarksExactly(lasers, aliens, als, lasers[i].id);
    ShotMarksExactly(lasers, aliens, als, aliens[j].id);
  }

  /** A player laser and an alien laser that overlap are both marked. */
  lemma InterceptMarksBoth(lasers: seq<Laser>, aliens: seq<Alien>, als: seq<Laser>, i: nat, j: nat)
    requires i < |lasers| && j < |als| && Intercepts(lasers[i], als[j])
    ensures lasers[i].id in ShotMarks(lasers, aliens, als)
    ensures als[j].id in ShotMarks(lasers, aliens, als)
  {
    ShotMarksExactly(lasers, aliens, als, lasers[i].id);
    ShotMarksExactly(lasers, aliens, als, als[j].id);
  }

  /**
   * After the batched removal neither member of an overlapping (laser, alien)
   * pair survives, whatever else (`extra`) was marked in the same frame.
   */
  lemma HitPairRemoved(lasers: seq<Laser>, aliens: seq<Alien>, als: seq<Laser>,
                       extra: set<int>, i: nat, j: nat)
    requires i < |lasers| && j < |aliens| && Hits(lasers[i], aliens[j])
    ensures lasers[i] !in RemoveIds(lasers, LaserId, ShotMarks(lasers, aliens, als) + extra)
    ensures aliens[j] !in RemoveIds(aliens, AlienId, ShotMarks(lasers, aliens, als) + extra)
  {
    HitMarksBoth(lasers, aliens, als, i, j);
    RemoveIdsKeeps(lasers, LaserId, ShotMarks(lasers, aliens, als) + extra, lasers[i]);
    RemoveIdsKeeps(aliens, AlienId, ShotMarks(lasers, aliens, als) + extra, aliens[j]);
  }

  function Harmless(box: Rect): Laser -> bool { m => !Overlap(LaserBox(m), box) }

  /** The alien lasers that overlap `box`, in order. */
  function Strikes(als: seq<Laser>, box: Rect): (r: seq<Laser>)
    ensures |r| <= |als|
  {
    EraseIf(als, Harmless(box))
  }

  lemma StrikesKeeps(als: seq<Laser>, box: Rect, m: Laser)
    ensures m in Strikes(als, box) <==> m in als && Overlap(LaserBox(m), box)
  {
    EraseIfKeeps(als, Harmless(box), m);
  }

  lemma StrikesStep(als: seq<Laser>, box: Rect, j: nat)
    requires j < |als|
    ensures Strikes(als[..j + 1], box) ==
            Strikes(als[..j], box) + (if Overlap(LaserBox(als[j]), box) then [als[j]] else [])
  {
    EraseIfSnoc(als, j, Harmless(box));
  }

  /**
   * The explosions of n ship hits in one frame: the first where the ship was,
   * every later one where the first hit parked it.
   */
  function ShipExplosions(pos: Vec2, n: nat, now: int, first: int): (r: seq<Animation>)
    ensures |r| == n
  {
    if n == 0 then []
    else ShipExplosions(pos, n - 1, now, first) + [Explosion(if n == 1 then pos else Offscreen, now, first + n - 1)]
  }

  /** Hit k's explosion: at `pos` for the first hit, off screen after it, with id `first + k`. */
  lemma {:induction false} ShipExplosionsAt(pos: Vec2, n: nat, now: int, first: int, k: nat)
    requires k < n
    ensures ShipExplosions(pos, n, now, first)[k] == Explosion(if k == 0 then pos else Offscreen, now, first + k)
    ensures ShipExplosions(pos, n, now, first)[k].id == first + k
  {
    if k < n - 1 {
      ShipExplosionsAt(pos, n - 1, now, first, k);
    }
  }

  /** One more hit adds one explosion, off screen unless it is the first. */
  lemma ShipExplosionsSnoc(pos: Vec2, n: nat, now: int, first: int)
    ensures ShipExplosions(pos, n + 1, now, first) ==
            ShipExplosions(pos, n, now, first) + [Explosion(if n == 0 then pos else Offscreen, now, first + n)]
  {
  }

  /** The ship after a hit: parked off screen, dead, with one second to respawn. */
  function Wrecked(s: Ship): (r: Ship)
    ensures r.dead && r.pos == Offscreen && r.respawn == 1.0 && r.size == s.size
  {
    s.(pos := Offscreen, dead := true, respawn := 1.0)
  }
}
