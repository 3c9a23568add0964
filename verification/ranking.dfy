/** Ordering stored films by the size of their like-sets, largest first. The
    films are handled through their keys in the store's map. */
module Ranking {
  import opened Films

  /** The number of likes of the film stored under `k`, used as its sort key. */
  function Popularity(films: map<int, Film>): (w: int -> nat)
    ensures forall k :: k in films ==> w(k) == |films[k].likes|
  {
    k => if k in films then |films[k].likes| else 0
  }

  /** No key occurs twice. */
  predicate Distinct(ids: seq<int>) {
    forall i, j :: 0 <= i < j < |ids| ==> ids[i] != ids[j]
  }

  /** Non-increasing weight along `ids`. */
  predicate HeaviestFirst(w: int -> nat, ids: seq<int>) {
    forall i, j :: 0 <= i < j < |ids| ==> w(ids[i]) >= w(ids[j])
  }

  /** The result of `findMostPopular(count)` as a property of the returned
      films `r` and the keys `ids` they are stored under: as many films as
      `count` allows, distinct stored films, most liked first, and no film left
      out has more likes than one taken. */
  ghost predicate IsMostPopular(films: map<int, Film>, count: nat, r: seq<Film>, ids: seq<int>) {
    && |r| == (if count < |films| then count else |films|)
    && |ids| == |r|
    && Distinct(ids)
    && (forall i :: 0 <= i < |r| ==> ids[i] in films && films[ids[i]] == r[i])
    && (forall i, j :: 0 <= i < j < |r| ==> |r[i].likes| >= |r[j].likes|)
    && (forall k, i :: k in films && k !in ids && 0 <= i < |r| ==> |films[k].likes| <= |r[i].likes|)
  }

  /** Putting a key no lighter than the head in front keeps the order. */
  lemma PrependKeepsOrder(w: int -> nat, x: int, ids: seq<int>)
    requires HeaviestFirst(w, ids)
    requires ids != [] ==> w(x) >= w(ids[0])
    ensures HeaviestFirst(w, [x] + ids)
  {
  }

  /** Inserts `k` in front of the first key that is strictly lighter. */
  function Insert(w: int -> nat, k: int, ids: seq<int>): (r: seq<int>)
    requires HeaviestFirst(w, ids)
    ensures HeaviestFirst(w, r)
    ensures multiset(r) == multiset(ids) + multiset{k}
  {
    if ids == [] then [k]
    else if w(k) >= w(ids[0]) then
      PrependKeepsOrder(w, k, ids);
      [k] + ids
    else
      var rest := Insert(w, k, ids[1..]);
      assert multiset(ids) == multiset{ids[0]} + multiset(ids[1..]) by {
        assert ids == [ids[0]] + ids[1..];
      }
      assert rest[0] in multiset(ids[1..]) + multiset{k};
      PrependKeepsOrder(w, ids[0], rest);
      [ids[0]] + rest
  }

  /** Insertion sort of `ids`, heaviest first: a reordering of `ids`. */
  function Sort(w: int -> nat, ids: seq<int>): (r: seq<int>)
    ensures HeaviestFirst(w, r)
    ensures multiset(r) == multiset(ids)
  {
    if ids == [] then []
    else
      assert multiset(ids) == multiset{ids[0]} + multiset(ids[1..]) by {
        assert ids == [ids[0]] + ids[1..];
      }
      Insert(w, ids[0], Sort(w, ids[1..]))
  }

  /** A reordering of a sequence without repeats has no repeats. */
  lemma {:induction false} ReorderKeepsDistinct(a: seq<int>, b: seq<int>)
    requires Distinct(a) && multiset(a) == multiset(b)
    ensures Distinct(b)
  {
    forall i, j | 0 <= i < j < |b|
      ensures b[i] != b[j]
    {
      if b[i] == b[j] {
        assert multiset(b)[b[i]] >= 2 by {
          assert b == b[..j] + [b[j]] + b[j + 1..];
          assert b[i] in multiset(b[..j]);
        }
        MultiplicityAtMostOne(a, b[i]);
        assert false;
      }
    }
  }

  /** In a sequence without repeats every element occurs at most once. */
  lemma {:induction false} MultiplicityAtMostOne(a: seq<int>, x: int)
    requires Distinct(a)
    ensures multiset(a)[x] <= 1
  {
    if a != [] {
      assert a == [a[0]] + a[1..];
      assert Distinct(a[1..]);
      MultiplicityAtMostOne(a[1..], x);
      if x == a[0] {
        assert x !in a[1..];
      }
    }
  }

  /** A non-empty set has a member to pick. `StoredIds` calls this before its
      `:|` choice: with contradictory-assumption checking enabled, the verifier
      does not find the witness for a non-empty set on its own. */
  lemma NonEmptyHasElement(s: set<int>)
    requires s != {}
    ensures exists x :: x in s
  {
    if forall y :: y !in s {
      assert false;
    }
  }

  /** The keys of `films`, each once, in some order. */
  method StoredIds(films: map<int, Film>) returns (ids: seq<int>)
    ensures |ids| == |films|
    ensures Distinct(ids)
    ensures forall k :: k in films <==> k in ids
  {
    ids := [];
    var rest := films.Keys;
    while rest != {}
      invariant rest <= films.Keys
      invariant |ids| + |rest| == |films|
      invariant forall k :: k in films <==> k in ids || k in rest
      invariant forall i :: 0 <= i < |ids| ==> ids[i] !in rest
      invariant Distinct(ids)
      decreases rest
    {
      NonEmptyHasElement(rest);
      var key :| key in rest;
      ids := ids + [key];
      rest := rest - {key};
    }
  }

  /** When `count` covers the store, the ranking lists every stored film. */
  lemma RankingOfAllCoversStore(films: map<int, Film>, count: nat, r: seq<Film>, ids: seq<int>)
    requires IsMostPopular(films, count, r, ids)
    requires count >= |films|
    ensures forall k :: k in films <==> k in ids
  {
    forall k | k in films
      ensures k in ids
    {
      if k !in ids {
        DistinctFitsIn(ids, films.Keys - {k});
        assert false;
      }
    }
  }

  /** Pigeonhole: a sequence without repeats drawn from `s` is no longer than `s` is large. */
  lemma {:induction false} DistinctFitsIn(ids: seq<int>, s: set<int>)
    requires Distinct(ids)
    requires forall i :: 0 <= i < |ids| ==> ids[i] in s
    ensures |ids| <= |s|
  {
    if ids != [] {
      assert Distinct(ids[1..]);
      DistinctFitsIn(ids[1..], s - {ids[0]});
    }
  }

  /** The films stored under `ids`, in that order. */
  function FilmsAt(films: map<int, Film>, ids: seq<int>): (r: seq<Film>)
    requires forall i :: 0 <= i < |ids| ==> ids[i] in films
    ensures |r| == |ids|
    ensures forall i :: 0 <= i < |ids| ==> r[i] == films[ids[i]]
  {
    seq(|ids|, i requires 0 <= i < |ids| => films[ids[i]])
  }

  /** Sorting the stored keys yields every stored key once, most liked first. */
  lemma SortedKeys(films: map<int, Film>, all: seq<int>, sorted: seq<int>)
    requires |all| == |films| && Distinct(all) && forall k :: k in films <==> k in all
    requires sorted == Sort(Popularity(films), all)
    ensures |sorted| == |films| && Distinct(sorted)
    ensures forall k :: k in films <==> k in sorted
    ensures forall i :: 0 <= i < |sorted| ==> sorted[i] in films
    ensures HeaviestFirst(Popularity(films), sorted)
  {
    assert |sorted| == |multiset(sorted)| == |multiset(all)| == |all|;
    ReorderKeepsDistinct(all, sorted);
    forall k ensures k in films <==> k in sorted {
      assert k in sorted <==> k in multiset(sorted);
      assert k in all <==> k in multiset(all);
    }
  }

  /** The first `count` keys of an ordering of all stored keys by popularity
      form a most-popular ranking. */
  lemma PrefixIsMostPopular(films: map<int, Film>, count: nat, sorted: seq<int>)
    requires |sorted| == |films| && Distinct(sorted)
    requires forall k :: k in films <==> k in sorted
    requires forall i :: 0 <= i < |sorted| ==> sorted[i] in films
    requires HeaviestFirst(Popularity(films), sorted)
    ensures var n := if count < |sorted| then count else |sorted|;
      IsMostPopular(films, count, FilmsAt(films, sorted[..n]), sorted[..n])
  {
  }

  /** A ranking restated without keys: stored films, as many as `count`
      allows, most liked first, and no stored film missing from it has more
      likes than one in it. */
  lemma RankingInFilmTerms(films: map<int, Film>, count: nat, r: seq<Film>, ids: seq<int>)
    requires IsMostPopular(films, count, r, ids)
    ensures |r| == if count < |films| then count else |films|
    ensures forall i :: 0 <= i < |r| ==> r[i] in films.Values
    ensures forall i, j :: 0 <= i < j < |r| ==> |r[i].likes| >= |r[j].likes|
    ensures forall k, i :: k in films && films[k] !in r && 0 <= i < |r| ==> |films[k].likes| <= |r[i].likes|
  {
    forall k, i | k in films && films[k] !in r && 0 <= i < |r|
      ensures |films[k].likes| <= |r[i].likes|
    {
      assert k !in ids;
    }
  }

  /** Three films with 0, 2 and 1 likes: the top two are the 2-like film and
      then the 1-like film, whatever order the store lists them in. */
  lemma TopTwoOfThree(films: map<int, Film>, r: seq<Film>, ids: seq<int>)
    requires films.Keys == {1, 2, 3}
    requires |films[1].likes| == 0 && |films[2].likes| == 2 && |films[3].likes| == 1
    requires IsMostPopular(films, 2, r, ids)
    ensures ids == [2, 3]
    ensures r == [films[2], films[3]]
  {
  }
}
