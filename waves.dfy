/**
 * Level setup: the wave of aliens `new_level` appends for a level.
 */
module Waves {
  import opened Geometry
  import opened Entities

  /** The number of rows of the wave for `level`: the loop runs no rows for level <= 0. */
  function Rows(level: int): nat {
    if level > 0 then level else 0
  }

  /** Alien (i, j) of a wave: row i, column j, type i mod 3. */
  function WaveAlien(i: nat, j: nat, id: int): Alien {
    Alien(Vec2(20.0 + j as real * 16.0, 20.0 + i as real * 16.0), i % 3, id)
  }

  /** The first n aliens of a wave, numbered row by row from `first`. */
  function WavePrefix(n: nat, first: int): (w: seq<Alien>)
    ensures |w| == n
  {
    seq(n, k requires k >= 0 => WaveAlien(k / 8, k % 8, first + k))
  }

  /** The whole wave for `level`: 8 aliens per row, ids consecutive from `first`. */
  function Wave(level: int, first: int): (w: seq<Alien>)
    ensures |w| == 8 * Rows(level)
  {
    WavePrefix(8 * Rows(level), first)
  }

  /** The first j aliens of row i, numbered from `first`. */
  function RowPrefix(i: nat, j: nat, first: int): (r: seq<Alien>)
    ensures |r| == j
  {
    seq(j, k requires k >= 0 => WaveAlien(i, k, first + k))
  }

  /** Pushing alien (i, j) extends the part of row i before it. */
  lemma RowPrefixStep(i: nat, j: nat, first: int)
    ensures RowPrefix(i, j + 1, first) == RowPrefix(i, j, first) + [WaveAlien(i, j, first + j)]
  {
  }

  /** A wave grows row by row: row i holds the next eight ids. */
  lemma WavePrefixRow(i: nat, first: int)
    ensures WavePrefix(8 * (i + 1), first) == WavePrefix(8 * i, first) + RowPrefix(i, 8, first + 8 * i)
  {
    var w, row := WavePrefix(8 * (i + 1), first), RowPrefix(i, 8, first + 8 * i);
    forall k | 8 * i <= k < 8 * (i + 1) ensures w[k] == row[k - 8 * i] {
      assert k / 8 == i && k % 8 == k - 8 * i;
    }
    forall k | 0 <= k < 8 * i ensures w[k] == WavePrefix(8 * i, first)[k] {}
  }

  /** Every alien of a wave has an id at or above `first`, where its numbering starts. */
  lemma WaveIdsFrom(level: int, first: int, a: Alien)
    requires a in Wave(level, first)
    ensures a.id >= first
  {
    var k :| 0 <= k < |Wave(level, first)| && Wave(level, first)[k] == a;
  }

  /** Alien (i, j) sits at index 8i + j, at (20 + 16j, 20 + 16i), with type i mod 3. */
  lemma WaveAt(level: int, first: int, i: nat, j: nat)
    requires i < Rows(level) && j < 8
    ensures 8 * i + j < |Wave(level, first)|
    ensures Wave(level, first)[8 * i + j] ==
            Alien(Vec2(20.0 + 16.0 * j as real, 20.0 + 16.0 * i as real), i % 3, first + 8 * i + j)
  {
    var n := 8 * i + j;
    assert n / 8 == i && n % 8 == j;
  }
}
