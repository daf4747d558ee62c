/**
 * The formation controller: the swarm's RIGHT / LEFT / DOWN state machine and
 * the rigid displacement it applies to every alien each frame.
 */
module Swarm {
  import opened Geometry
  import opened Entities

  /** An alien beyond the left margin, or whose right edge is beyond the right margin. */
  predicate AtEdge(a: Alien) {
    a.pos.x < 20.0 || a.pos.x > ScreenWidth - Padding - TypeOf(a.kind).size.x
  }

  predicate SomeAtEdge(aliens: seq<Alien>) {
    exists k :: 0 <= k < |aliens| && AtEdge(aliens[k])
  }

  /** `std::any_of` over the swarm with the edge test. */
  method AnyAtEdge(aliens: seq<Alien>) returns (found: bool)
    ensures found <==> SomeAtEdge(aliens)
  {
    found := false;
    var k := 0;
    while k < |aliens| && !found
      invariant 0 <= k <= |aliens|
      invariant found <==> exists i :: 0 <= i < k && AtEdge(aliens[i])
    {
      found := AtEdge(aliens[k]);
      k := k + 1;
    }
  }

  datatype Formation = Formation(move: Move, lastMove: Move)

  predicate Horizontal(m: Move) { m != Down }

  /**
   * One frame of the state machine. `edge` says whether some alien is at an
   * edge (it is only consulted outside DOWN).
   */
  function NextFormation(f: Formation, edge: bool): (r: Formation)
    // Outside DOWN: remember the direction, and pulse DOWN exactly when an alien is at an edge.
    ensures f.move != Down ==> r.lastMove == f.move && (r.move == Down <==> edge)
    ensures f.move != Down && !edge ==> r.move == f.move
    // In DOWN: leave it at once, for the horizontal direction other than the remembered one.
    ensures f.move == Down ==> r.lastMove == f.lastMove && Horizontal(r.move) && r.move != f.lastMove
    // The remembered direction is never DOWN, and DOWN never lasts two frames.
    ensures Horizontal(f.lastMove) ==> Horizontal(r.lastMove)
    ensures f.move == Down ==> r.move != Down
  {
    if f.move != Down then
      Formation(if edge then Down else f.move, f.move)
    else
      Formation(if f.lastMove == Left then Right else Left, f.lastMove)
  }

  /** A bounce: a horizontal move that meets an edge turns into the opposite horizontal move two frames later. */
  lemma BounceReverses(f: Formation, later: bool)
    requires Horizontal(f.move)
    ensures var g := NextFormation(f, true);
            g.move == Down && var h := NextFormation(g, later);
            Horizontal(h.move) && h.move != f.move
  {
  }

  /** The formations after each of a run of frames, given each frame's edge test. */
  function Run(f: Formation, edges: seq<bool>): (r: seq<Formation>)
    ensures |r| == |edges|
    decreases |edges|
  {
    if edges == [] then []
    else
      var g := NextFormation(f, edges[0]);
      [g] + Run(g, edges[1..])
  }

  /**
   * Over any run of frames the remembered direction stays horizontal, DOWN
   * never holds in two consecutive frames, and every DOWN pulse leaves for
   * the direction opposite to the one the swarm moved in before it.
   */
  lemma {:induction false} RunAlternates(f: Formation, edges: seq<bool>)
    requires Horizontal(f.lastMove)
    ensures var r := Run(f, edges);
            && (forall k :: 0 <= k < |r| ==> Horizontal(r[k].lastMove))
            && (forall k :: 0 <= k < |r| - 1 ==> r[k].move == Down ==> r[k + 1].move != Down)
            && (forall k :: 0 <= k < |r| - 1 ==> r[k].move == Down ==> r[k + 1].move != r[k].lastMove)
            && (|r| > 0 && r[0].move == Down ==> r[0].lastMove == f.move)
            && (forall k :: 1 <= k < |r| ==> r[k].move == Down ==> r[k].lastMove == r[k - 1].move)
    decreases |edges|
  {
    if edges != [] {
      var g := NextFormation(f, edges[0]);
      RunAlternates(g, edges[1..]);
      var r := Run(f, edges);
      assert r == [g] + Run(g, edges[1..]);
      forall k | 1 <= k < |r| ensures r[k] == Run(g, edges[1..])[k - 1] {}
    }
  }

  /** The displacement of every alien in a frame with move `m`. */
  function Offset(m: Move): Vec2 {
    match m
    case Right => Vec2(1.0, 0.0)
    case Left => Vec2(-1.0, 0.0)
    case Down => Vec2(0.0, 10.0)
  }

  /** Moves every alien by the same displacement, in place. */
  method DisplaceSwarm(aliens: seq<Alien>, m: Move) returns (moved: seq<Alien>)
    ensures |moved| == |aliens|
    ensures forall k :: 0 <= k < |aliens| ==>
      && moved[k].pos == aliens[k].pos.Plus(Offset(m))
      && moved[k].kind == aliens[k].kind && moved[k].id == aliens[k].id
    // Rigid: the swarm's shape is unchanged.
    ensures forall i, j :: 0 <= i < |aliens| && 0 <= j < |aliens| ==>
      && moved[i].pos.x - moved[j].pos.x == aliens[i].pos.x - aliens[j].pos.x
      && moved[i].pos.y - moved[j].pos.y == aliens[i].pos.y - aliens[j].pos.y
  {
    moved := aliens;
    var k := 0;
    while k < |moved|
      invariant 0 <= k <= |moved| == |aliens|
      invariant forall i :: 0 <= i < k ==> moved[i] == aliens[i].(pos := aliens[i].pos.Plus(Offset(m)))
      invariant forall i :: k <= i < |aliens| ==> moved[i] == aliens[i]
    {
      var a := moved[k];
      match m {
        case Right => a := a.(pos := a.pos.(x := a.pos.x + 1.0));
        case Left => a := a.(pos := a.pos.(x := a.pos.x - 1.0));
        case Down => a := a.(pos := a.pos.(y := a.pos.y + 10.0));
      }
      moved := moved[k := a];
      k := k + 1;
    }
  }

  /**
   * The alien lasers spawned in one frame: alien k fires when `shots[k]`
   * holds (the frame's random decision for it). Ids are consecutive from
   * `first`, in swarm order.
   */
  function AlienShots(aliens: seq<Alien>, shots: seq<bool>, first: int): (r: seq<Laser>)
    requires |shots| == |aliens|
    ensures |r| <= |aliens|
    decreases |aliens|
  {
    if aliens == [] then []
    else
      var n := |aliens| - 1;
      var earlier := AlienShots(aliens[..n], shots[..n], first);
      earlier + (if shots[n] then [AlienShot(aliens[n].pos, first + |earlier|)] else [])
  }

  /** Deciding for the alien after a prefix extends that prefix's shots by at most one. */
  lemma AlienShotsStep(aliens: seq<Alien>, shots: seq<bool>, first: int, i: nat)
    requires |shots| == |aliens| && i < |aliens|
    ensures var earlier := AlienShots(aliens[..i], shots[..i], first);
            AlienShots(aliens[..i + 1], shots[..i + 1], first) ==
            earlier + (if shots[i] then [AlienShot(aliens[i].pos, first + |earlier|)] else [])
  {
    assert aliens[..i + 1][..i] == aliens[..i];
    assert shots[..i + 1][..i] == shots[..i];
  }

  /** The spawned lasers take consecutive ids from `first`. */
  lemma {:induction false} AlienShotsIds(aliens: seq<Alien>, shots: seq<bool>, first: int)
    requires |shots| == |aliens|
    ensures forall k :: 0 <= k < |AlienShots(aliens, shots, first)| ==> AlienShots(aliens, shots, first)[k].id == first + k
    decreases |aliens|
  {
    if aliens != [] {
      var n := |aliens| - 1;
      AlienShotsIds(aliens[..n], shots[..n], first);
    }
  }

  /** One laser per alien whose decision is to fire. */
  lemma {:induction false} AlienShotsCount(aliens: seq<Alien>, shots: seq<bool>, first: int)
    requires |shots| == |aliens|
    ensures |AlienShots(aliens, shots, first)| == multiset(shots)[true]
    decreases |aliens|
  {
    if aliens != [] {
      var n := |aliens| - 1;
      AlienShotsCount(aliens[..n], shots[..n], first);
      assert shots == shots[..n] + [shots[n]];
    }
  }

  /**
   * Every alien that decides to fire spawns its shot, from its own position,
   * with the id after those of the earlier aliens' shots.
   */
  lemma {:induction false} AlienShotsOfFiring(aliens: seq<Alien>, shots: seq<bool>, first: int, j: nat)
    requires |shots| == |aliens| && j < |aliens| && shots[j]
    ensures AlienShot(aliens[j].pos, first + multiset(shots[..j])[true]) in AlienShots(aliens, shots, first)
    decreases |aliens|
  {
    var n := |aliens| - 1;
    if j == n {
      AlienShotsCount(aliens[..n], shots[..n], first);
    } else {
      AlienShotsOfFiring(aliens[..n], shots[..n], first, j);
      assert aliens[..n][j] == aliens[j] && shots[..n][..j] == shots[..j];
    }
  }

  /** Every spawned laser is the shot of an alien that decided to fire, from that alien's position. */
  lemma {:induction false} AlienShotsFrom(aliens: seq<Alien>, shots: seq<bool>, first: int)
    requires |shots| == |aliens|
    ensures forall m :: m in AlienShots(aliens, shots, first) ==>
              exists j :: 0 <= j < |aliens| && shots[j] && m == AlienShot(aliens[j].pos, m.id)
    decreases |aliens|
  {
    if aliens != [] {
      var n := |aliens| - 1;
      AlienShotsFrom(aliens[..n], shots[..n], first);
      forall m | m in AlienShots(aliens[..n], shots[..n], first)
        ensures exists j :: 0 <= j < |aliens| && shots[j] && m == AlienShot(aliens[j].pos, m.id)
      {
        var j :| 0 <= j < n && shots[..n][j] && m == AlienShot(aliens[..n][j].pos, m.id);
        assert shots[j] && aliens[..n][j] == aliens[j];
      }
    }
  }
}
