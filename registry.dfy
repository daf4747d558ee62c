/**
 * The entity registry: ids, the order-preserving filter behind every
 * `std::erase_if` of the frame step, and the batched removal by id.
 */
module Registry {

  /** The elements of `s` that `doomed` rejects, in their original order. */
  function EraseIf<T(!new)>(s: seq<T>, doomed: T -> bool): (r: seq<T>)
    ensures |r| <= |s|
  {
    if s == [] then []
    else (if doomed(s[0]) then [] else [s[0]]) + EraseIf(s[1..], doomed)
  }

  /** An element survives the filter exactly when it was there and is not doomed. */
  lemma {:induction false} EraseIfKeeps<T(!new)>(s: seq<T>, doomed: T -> bool, x: T)
    ensures x in EraseIf(s, doomed) <==> x in s && !doomed(x)
  {
    if s != [] {
      EraseIfKeeps(s[1..], doomed, x);
      assert s == [s[0]] + s[1..];
    }
  }

  /** The filter never adds an element, nor repeats one. */
  lemma {:induction false} EraseIfSubMultiset<T(!new)>(s: seq<T>, doomed: T -> bool)
    ensures multiset(EraseIf(s, doomed)) <= multiset(s)
  {
    if s != [] {
      EraseIfSubMultiset(s[1..], doomed);
      assert s == [s[0]] + s[1..];
    }
  }

  /** Filtering distributes over concatenation, so relative order is kept. */
  lemma {:induction false} EraseIfAppend<T(!new)>(a: seq<T>, b: seq<T>, doomed: T -> bool)
    ensures EraseIf(a + b, doomed) == EraseIf(a, doomed) + EraseIf(b, doomed)
  {
    if a == [] {
      assert a + b == b;
    } else {
      assert (a + b)[0] == a[0];
      assert (a + b)[1..] == a[1..] + b;
      EraseIfAppend(a[1..], b, doomed);
    }
  }

  /** One more element at the end of a prefix adds at most that element. */
  lemma EraseIfSnoc<T(!new)>(s: seq<T>, j: nat, doomed: T -> bool)
    requires j < |s|
    ensures EraseIf(s[..j + 1], doomed) ==
            EraseIf(s[..j], doomed) + (if doomed(s[j]) then [] else [s[j]])
  {
    assert s[..j + 1] == s[..j] + [s[j]];
    EraseIfAppend(s[..j], [s[j]], doomed);
  }

  /** When nothing is doomed the filter is the identity. */
  lemma {:induction false} EraseIfNothingDoomed<T(!new)>(s: seq<T>, doomed: T -> bool)
    requires forall x :: x in s ==> !doomed(x)
    ensures EraseIf(s, doomed) == s
  {
    if s != [] {
      assert s[0] in s;
      forall x | x in s[1..] ensures !doomed(x) { assert x in s; }
      EraseIfNothingDoomed(s[1..], doomed);
      assert s == [s[0]] + s[1..];
    }
  }

  lemma EraseIfIdempotent<T(!new)>(s: seq<T>, doomed: T -> bool)
    ensures EraseIf(EraseIf(s, doomed), doomed) == EraseIf(s, doomed)
  {
    forall x | x in EraseIf(s, doomed) ensures !doomed(x) {
      EraseIfKeeps(s, doomed, x);
    }
    EraseIfNothingDoomed(EraseIf(s, doomed), doomed);
  }

  /** Concatenation is associative. */
  lemma AppendAssoc<T>(a: seq<T>, b: seq<T>, c: seq<T>)
    ensures (a + b) + c == a + (b + c)
  {
  }

  /** The ids of `s`, position by position. */
  function Ids<T>(s: seq<T>, idOf: T -> int): (r: seq<int>)
    ensures |r| == |s|
  {
    seq(|s|, k requires 0 <= k < |s| => idOf(s[k]))
  }

  /** Entities that agree on their ids position by position have the same ids. */
  lemma IdsPointwise<T>(a: seq<T>, b: seq<T>, idOf: T -> int)
    requires |a| == |b|
    requires forall k :: 0 <= k < |a| ==> idOf(a[k]) == idOf(b[k])
    ensures Ids(a, idOf) == Ids(b, idOf)
  {
  }

  lemma IdsAppend<T>(a: seq<T>, b: seq<T>, idOf: T -> int)
    ensures Ids(a + b, idOf) == Ids(a, idOf) + Ids(b, idOf)
  {
  }

  /** Filtering never adds an id, nor repeats one. */
  lemma {:induction false} IdsOfEraseIf<T(!new)>(s: seq<T>, doomed: T -> bool, idOf: T -> int)
    ensures multiset(Ids(EraseIf(s, doomed), idOf)) <= multiset(Ids(s, idOf))
  {
    if s != [] {
      var head := if doomed(s[0]) then [] else [s[0]];
      IdsOfEraseIf(s[1..], doomed, idOf);
      assert s == [s[0]] + s[1..];
      IdsAppend([s[0]], s[1..], idOf);
      IdsAppend(head, EraseIf(s[1..], doomed), idOf);
    }
  }

  /** The predicate "its id is in `ids`". */
  function Marked<T>(idOf: T -> int, ids: set<int>): T -> bool {
    x => idOf(x) in ids
  }

  /** Batched removal: keep exactly the elements whose id is not in `ids`. */
  function RemoveIds<T(!new)>(s: seq<T>, idOf: T -> int, ids: set<int>): (r: seq<T>)
    ensures |r| <= |s|
  {
    EraseIf(s, Marked(idOf, ids))
  }

  /** An element survives the removal exactly when it was there and its id is not marked. */
  lemma RemoveIdsKeeps<T(!new)>(s: seq<T>, idOf: T -> int, ids: set<int>, x: T)
    ensures x in RemoveIds(s, idOf, ids) <==> x in s && idOf(x) !in ids
  {
    EraseIfKeeps(s, Marked(idOf, ids), x);
  }

  lemma RemoveIdsAppend<T(!new)>(a: seq<T>, b: seq<T>, idOf: T -> int, ids: set<int>)
    ensures RemoveIds(a + b, idOf, ids) == RemoveIds(a, idOf, ids) + RemoveIds(b, idOf, ids)
  {
    EraseIfAppend(a, b, Marked(idOf, ids));
  }

  lemma RemoveIdsSingle<T(!new)>(x: T, idOf: T -> int, ids: set<int>)
    ensures RemoveIds([x], idOf, ids) == if idOf(x) in ids then [] else [x]
  {
    assert [x][1..] == [];
  }

  /** Removing ids that no element carries changes nothing. */
  lemma RemoveAbsentIds<T(!new)>(s: seq<T>, idOf: T -> int, ids: set<int>)
    requires forall x :: x in s ==> idOf(x) !in ids
    ensures RemoveIds(s, idOf, ids) == s
  {
    EraseIfNothingDoomed(s, Marked(idOf, ids));
  }

  lemma RemoveIdsIdempotent<T(!new)>(s: seq<T>, idOf: T -> int, ids: set<int>)
    ensures RemoveIds(RemoveIds(s, idOf, ids), idOf, ids) == RemoveIds(s, idOf, ids)
  {
    EraseIfIdempotent(s, Marked(idOf, ids));
  }

  lemma IdsOfRemoveIds<T(!new)>(s: seq<T>, idOf: T -> int, ids: set<int>)
    ensures multiset(Ids(RemoveIds(s, idOf, ids), idOf)) <= multiset(Ids(s, idOf))
  {
    IdsOfEraseIf(s, Marked(idOf, ids), idOf);
  }

  /** How often `x` occurs among `ids`. */
  function Count(ids: multiset<int>, x: int): nat { ids[x] }

  /** Every id occurs once and lies below `bound` (the next id to hand out). */
  ghost predicate UniqueBelow(ids: multiset<int>, bound: int) {
    forall x :: Count(ids, x) > 0 ==> Count(ids, x) == 1 && x < bound
  }

  lemma UniqueBelowSub(small: multiset<int>, big: multiset<int>, bound: int)
    requires small <= big && UniqueBelow(big, bound)
    ensures UniqueBelow(small, bound)
  {
    forall x | Count(small, x) > 0 ensures Count(small, x) == 1 && x < bound {
      assert Count(big, x) >= Count(small, x);
    }
  }

  /** Handing out the counter as the next id, and advancing it, keeps all ids unique. */
  lemma NextIdStaysUnique(ids: multiset<int>, bound: int)
    requires UniqueBelow(ids, bound)
    ensures UniqueBelow(ids + multiset{bound}, bound + 1)
  {
    var m := ids + multiset{bound};
    forall x | Count(m, x) > 0 ensures Count(m, x) == 1 && x < bound + 1 {
      assert Count(m, x) == Count(ids, x) + (if x == bound then 1 else 0);
      if x == bound {
        assert Count(ids, x) == 0;
      }
    }
  }

  /**
   * The ids of `s` are pairwise distinct and below `bound`, checked one entry
   * at a time from the end by `DistinctLast`.
   */
  ghost predicate DistinctBelow(s: seq<int>, bound: int)
    decreases |s|, 1
  {
    DistinctLast(s, bound)
  }

  /** The last id of `s` is below `bound` and not among the others, which are themselves distinct. */
  ghost predicate DistinctLast(s: seq<int>, bound: int)
    decreases |s|, 0
  {
    s == [] || (var n := |s| - 1; s[n] < bound && s[n] !in s[..n] && DistinctBelow(s[..n], bound))
  }

  /** Distinct entries below the bound are exactly a unique multiset below it. */
  lemma {:induction false} DistinctBelowIsUnique(s: seq<int>, bound: int)
    ensures DistinctBelow(s, bound) <==> UniqueBelow(multiset(s), bound)
    decreases |s|
  {
    if s != [] {
      var n := |s| - 1;
      var init, y := s[..n], s[n];
      assert s == init + [y];
      var m, m' := multiset(s), multiset(init);
      assert m == m' + multiset{y};
      assert DistinctBelow(s, bound) == DistinctLast(s, bound);
      DistinctBelowIsUnique(init, bound);
      if DistinctBelow(s, bound) {
        forall x | Count(m, x) > 0 ensures Count(m, x) == 1 && x < bound {
          assert Count(m, x) == Count(m', x) + (if x == y then 1 else 0);
          if x == y {
            assert Count(m', x) == 0;
          }
        }
      }
      if UniqueBelow(m, bound) {
        UniqueBelowSub(m', m, bound);
        assert Count(m, y) > 0;
        assert Count(m', y) == 0;
      }
    }
  }

  /** A sequence of ids whose multiset is unique has pairwise distinct entries. */
  lemma UniqueMeansDistinct(s: seq<int>, bound: int)
    requires UniqueBelow(multiset(s), bound)
    ensures forall i, j :: 0 <= i < j < |s| ==> s[i] != s[j]
    ensures forall i :: 0 <= i < |s| ==> s[i] < bound
  {
    forall i, j | 0 <= i < j < |s| ensures s[i] != s[j] {
      assert s == s[..j] + [s[j]] + s[j + 1..];
      assert s[..j][i] == s[i];
      assert Count(multiset(s), s[i]) >= multiset(s[..j])[s[i]] + multiset([s[j]])[s[i]];
    }
    forall i | 0 <= i < |s| ensures s[i] < bound {
      assert Count(multiset(s), s[i]) > 0;
    }
  }
}
